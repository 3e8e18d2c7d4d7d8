/**
  Rate limits as text: the parser of the API's rate strings and the printer that turns a limit
  back into the notation of the limits library.
 */
module RateLimit {
  import opened Text
  import opened Wrappers

  datatype Rate = Rate(times: int, seconds: int)
  datatype Result = Parsed(rate: Rate) | ValueError

  // --------------------------------------------------------------- string helpers

  /** All white space removed. */
  function Compact(s: string): string {
    if s == [] then "" else (if IsSpace(s[0]) then "" else [s[0]]) + Compact(s[1..])
  }

  /** Every occurrence of "per " replaced by a slash, from left to right. */
  function PerToSlash(s: string): string
    decreases |s|
  {
    if s == [] then ""
    else if "per " <= s then "/" + PerToSlash(s[4..])
    else [s[0]] + PerToSlash(s[1..])
  }

  /** Digits, with single underscores allowed between them, as integer literals are read. */
  function Literal(s: string): Option<int> {
    if s == [] || !IsDigit(s[|s| - 1]) then None
    else if |s| == 1 then Some(DigitValue(s[0]))
    else
      var rest := if s[|s| - 2] == '_' then s[..|s| - 2] else s[..|s| - 1];
      match Literal(rest)
      case None => None
      case Some(v) => Some(10 * v + DigitValue(s[|s| - 1]))
  }

  /** The built-in conversion of text to an integer; None stands for its ValueError. */
  function ToInt(text: string): Option<int> {
    var s := Strip(text);
    if s != [] && s[0] == '-' then
      (match Literal(s[1..]) case None => None case Some(v) => Some(-v))
    else if s != [] && s[0] == '+' then Literal(s[1..])
    else Literal(s)
  }

  function LeadingDigits(s: string): (n: nat)
    ensures n <= |s| && (forall i :: 0 <= i < n ==> IsDigit(s[i])) && (n < |s| ==> !IsDigit(s[n]))
  {
    if s == [] || !IsDigit(s[0]) then 0 else 1 + LeadingDigits(s[1..])
  }

  predicate AllLetters(s: string) {
    forall i :: 0 <= i < |s| ==> 'a' <= s[i] <= 'z'
  }

  // ------------------------------------------------------------------- the parser

  const NGINX_UNITS: map<char, int> := map['s' := 1, 'm' := 60, 'h' := 3600, 'd' := 86400]

  const UNITS: map<string, int> := map[
    "s" := 1, "sec" := 1, "secs" := 1, "second" := 1, "seconds" := 1,
    "m" := 60, "min" := 60, "mins" := 60, "minute" := 60, "minutes" := 60,
    "h" := 3600, "hr" := 3600, "hrs" := 3600, "hour" := 3600, "hours" := 3600,
    "d" := 86400, "day" := 86400, "days" := 86400,
    "mo" := 2592000, "mon" := 2592000, "month" := 2592000, "months" := 2592000,
    "y" := 31536000, "yr" := 31536000, "yrs" := 31536000, "year" := 31536000, "years" := 31536000
  ]

  /** The short form `40r/m`; None when the text has another form. */
  function ParseNginx(s: string): Result {
    var n := LeadingDigits(s);
    var tail := if n < |s| && s[n] == 'r' then s[n + 1..] else s[n..];
    if n > 0 && |tail| == 2 && tail[0] == '/' && tail[1] in NGINX_UNITS then
      Parsed(Rate(DecimalValue(s[..n]), NGINX_UNITS[tail[1]]))
    else ValueError
  }

  /** The right-hand side: plain seconds, or an optional count in front of a unit. */
  function ParsePeriod(right: string, units: map<string, int>): Option<int> {
    match ToInt(right)
    case Some(seconds) => Some(seconds)
    case None =>
      var n := LeadingDigits(right);
      var unit := if n == 0 then right else StripLeft(right[n..]);
      if unit != [] && AllLetters(unit) && unit in units then
        Some((if n == 0 then 1 else DecimalValue(right[..n])) * units[unit])
      else None
  }

  function ParseParts(left: string, right: string, units: map<string, int>): Result {
    match ToInt(Strip(left))
    case None => ValueError
    case Some(times) =>
      match ParsePeriod(Strip(right), units)
      case None => ValueError
      case Some(seconds) => Parsed(Rate(times, seconds))
  }

  function ParseLong(r: string, units: map<string, int>): Result {
    var slash := IndexOf(r, '/', 0);
    if slash < 0 then ValueError else ParseParts(r[..slash], r[slash + 1..], units)
  }

  function ParseWith(text: string, units: map<string, int>): Result {
    var lowered := Lower(Strip(text));
    var nginx := ParseNginx(Compact(lowered));
    if nginx.Parsed? then nginx else ParseLong(PerToSlash(lowered), units)
  }

  function Parse(text: string): Result {
    ParseWith(text, UNITS)
  }

  // ------------------------------------------------------------------ the printer

  const FRIENDLY: seq<(int, string)> := [
    (31536000, "year"), (2592000, "month"), (86400, "day"), (3600, "hour"), (60, "minute")
  ]

  function UnitName(seconds: int): string
    requires seconds in {1, 60, 3600, 86400, 2592000, 31536000}
  {
    if seconds == 1 then "second" else if seconds == 60 then "minute" else if seconds == 3600 then "hour"
    else if seconds == 86400 then "day" else if seconds == 2592000 then "month" else "year"
  }

  /** The first unit of the list that divides the period, with its multiple. */
  function Multiple(seconds: int, units: seq<(int, string)>): Option<int>
    requires forall u :: u in units ==> u.0 > 0
    ensures var r := Multiple(seconds, units);
            r.Some? ==> 0 <= r.value < |units| && seconds % units[r.value].0 == 0
    ensures Multiple(seconds, units).None? ==> forall k :: 0 <= k < |units| ==> seconds % units[k].0 != 0
  {
    if units == [] then None
    else if seconds % units[0].0 == 0 then Some(0)
    else
      match Multiple(seconds, units[1..])
      case None =>
        assert forall k :: 0 < k < |units| ==> units[k] == units[1..][k - 1];
        None
      case Some(k) => Some(k + 1)
  }

  function Print(times: int, seconds: int): string {
    if seconds in {1, 60, 3600, 86400, 2592000, 31536000} then
      Signed(times) + "/" + UnitName(seconds)
    else
      match Multiple(seconds, FRIENDLY)
      case Some(k) =>
        var n := seconds / FRIENDLY[k].0;
        Signed(times) + "/" + (Signed(n) + FRIENDLY[k].1 + (if n != 1 then "s" else ""))
      case None => Signed(times) + " per " + Signed(seconds) + " seconds"
  }

  // ---------------------------------------------------------- reading back numbers

  lemma {:induction false} LiteralOfDecimal(n: nat)
    ensures Literal(Decimal(n)) == Some(n)
  {
    if n >= 10 {
      LiteralOfDecimal(n / 10);
      var s := Decimal(n);
      assert s[..|s| - 1] == Decimal(n / 10);
      assert s[|s| - 2] in Decimal(n / 10);
    }
  }

  lemma StripSigned(i: int)
    ensures Strip(Signed(i)) == Signed(i)
  {
    var s := Signed(i);
    assert !IsSpace(s[0]) && !IsSpace(s[|s| - 1]);
    StripNothing(s);
  }

  lemma ToIntOfStripped(s: string)
    requires Strip(s) == s
    ensures s != [] && s[0] == '-' ==> ToInt(s) == match Literal(s[1..]) case None => None case Some(v) => Some(-v)
    ensures s == [] || (s[0] != '-' && s[0] != '+') ==> ToInt(s) == Literal(s)
  {
  }

  lemma ToIntOfSigned(i: int)
    ensures ToInt(Signed(i)) == Some(i)
  {
    hide Strip, Literal, ToInt, Decimal;
    StripSigned(i);
    ToIntOfStripped(Signed(i));
    if i < 0 {
      SignedNegative(i);
      LiteralOfDecimal(-i);
    } else {
      SignedNatural(i);
      LiteralOfDecimal(i);
    }
  }

  lemma SignedNegative(i: int)
    requires i < 0
    ensures Signed(i) != [] && Signed(i)[0] == '-' && Signed(i)[1..] == Decimal(-i)
  {
    hide Decimal;
  }

  lemma SignedNatural(i: nat)
    ensures Signed(i) == Decimal(i) && Signed(i) != [] && Signed(i)[0] != '-' && Signed(i)[0] != '+'
  {
  }

  /** Text that ends in a letter is no integer. */
  lemma WordIsNoInteger(s: string)
    requires s != [] && 'a' <= s[|s| - 1] <= 'z'
    ensures ToInt(s) == None
  {
    var left := StripLeft(s);
    StripLeftKeepsLast(s);
    assert Strip(s) == left;
  }

  lemma {:induction false} StripLeftKeepsLast(s: string)
    requires s != [] && !IsSpace(s[|s| - 1])
    ensures StripLeft(s) != [] && StripLeft(s)[|StripLeft(s)| - 1] == s[|s| - 1]
  {
    if IsSpace(s[0]) { StripLeftKeepsLast(s[1..]); }
  }

  lemma {:induction false} LeadingDigitsOf(a: string, b: string)
    requires AllDigits(a) && (b == [] || !IsDigit(b[0]))
    ensures LeadingDigits(a + b) == |a|
  {
    if a == [] {
      assert a + b == b;
    } else {
      LeadingDigitsOf(a[1..], b);
      assert (a + b)[1..] == a[1..] + b;
    }
  }

  // ------------------------------------------------- reading back the whole string

  /** No upper-case letter, no slash, and no `p` that could start a "per ". */
  predicate Plain(s: string) {
    forall i :: 0 <= i < |s| ==> !('A' <= s[i] <= 'Z') && s[i] != '/' && s[i] != 'p'
  }

  predicate Spaceless(s: string) {
    forall i :: 0 <= i < |s| ==> !IsSpace(s[i])
  }

  lemma SignedIsPlain(i: int)
    ensures Plain(Signed(i)) && Spaceless(Signed(i))
  {
  }

  lemma LowerOfLower(s: string)
    requires forall i :: 0 <= i < |s| ==> !('A' <= s[i] <= 'Z')
    ensures Lower(s) == s
  {
  }

  lemma {:induction false} CompactConcat(a: string, b: string)
    ensures Compact(a + b) == Compact(a) + Compact(b)
  {
    if a == [] {
      assert a + b == b;
    } else {
      assert (a + b)[1..] == a[1..] + b;
      CompactConcat(a[1..], b);
    }
  }

  lemma {:induction false} CompactSpaceless(s: string)
    requires Spaceless(s)
    ensures Compact(s) == s
  {
    if s != [] {
      CompactSpaceless(s[1..]);
    }
  }

  lemma {:induction false} PerToSlashSkips(a: string, b: string)
    requires 'p' !in a
    ensures PerToSlash(a + b) == a + PerToSlash(b)
  {
    hide PerToSlash;
    if a == [] {
      assert a + b == b;
    } else {
      PerToSlashSkips(a[1..], b);
      PerToSlashStep(a[0], a[1..] + b);
      assert [a[0]] + (a[1..] + b) == a + b;
      assert [a[0]] + (a[1..] + PerToSlash(b)) == a + PerToSlash(b);
    }
  }

  lemma PerToSlashStep(c: char, rest: string)
    requires c != 'p'
    ensures PerToSlash([c] + rest) == [c] + PerToSlash(rest)
  {
    var s := [c] + rest;
    assert s[0] == c && s[1..] == rest;
    assert !("per " <= s) by { assert "per "[0] == 'p'; }
  }

  lemma PerToSlashOfPlain(s: string)
    requires 'p' !in s
    ensures PerToSlash(s) == s
  {
    PerToSlashSkips(s, "");
    assert s + "" == s;
  }

  function Assemble(times: int, period: Option<int>): Result {
    match period
    case None => ValueError
    case Some(seconds) => Parsed(Rate(times, seconds))
  }

  lemma SplitAtSlash(t: int, w: string, r: string)
    requires r == Signed(t) + "/" + w
    ensures IndexOf(r, '/', 0) == |Signed(t)|
    ensures r[..|Signed(t)|] == Signed(t) && r[|Signed(t)| + 1..] == w
  {
    SignedIsPlain(t);
    var n := |Signed(t)|;
    assert r[n] == '/';
    assert forall j :: 0 <= j < n ==> r[j] == Signed(t)[j];
  }

  lemma SlashFormIsNotNginx(t: int, w: string)
    requires |w| >= 2
    ensures ParseNginx(Signed(t) + "/" + w) == ValueError
  {
    var x := Signed(t) + "/" + w;
    assert x == Signed(t) + ("/" + w);
    if t < 0 {
      assert x[0] == '-';
    } else {
      LeadingDigitsOf(Signed(t), "/" + w);
      assert x[|Signed(t)|] == '/';
      assert x[|Signed(t)|..] == "/" + w;
    }
  }

  lemma PartsReadBack(t: int, left: string, w: string, units: map<string, int>)
    requires Strip(left) == Signed(t) && Strip(w) == w
    ensures ParseParts(left, w, units) == Assemble(t, ParsePeriod(w, units))
  {
    ToIntOfSigned(t);
  }

  lemma SlashFormIsClean(t: int, w: string, x: string)
    requires |w| >= 2 && Plain(w) && Spaceless(w) && x == Signed(t) + "/" + w
    ensures Spaceless(x) && 'p' !in x && (forall i :: 0 <= i < |x| ==> !('A' <= x[i] <= 'Z'))
  {
    SignedIsPlain(t);
  }

  lemma CleanTextIsLeftAlone(x: string)
    requires x != [] && Spaceless(x) && 'p' !in x && (forall i :: 0 <= i < |x| ==> !('A' <= x[i] <= 'Z'))
    ensures Strip(x) == x && Lower(x) == x && Compact(x) == x && PerToSlash(x) == x
  {
    StripNothing(x);
    LowerOfLower(x);
    CompactSpaceless(x);
    PerToSlashOfPlain(x);
  }

  lemma LongForm(x: string, lowered: string, c: string, r: string, units: map<string, int>)
    requires Strip(x) == x && Lower(x) == lowered && Compact(lowered) == c
    requires ParseNginx(c) == ValueError && PerToSlash(lowered) == r
    ensures ParseWith(x, units) == ParseLong(r, units)
  {
  }

  /** The printed forms with a slash parse part by part. */
  lemma ParseSlashForm(t: int, w: string, units: map<string, int>)
    requires |w| >= 2 && Plain(w) && Spaceless(w)
    ensures ParseWith(Signed(t) + "/" + w, units) == Assemble(t, ParsePeriod(w, units))
  {
    var x := Signed(t) + "/" + w;
    SlashFormIsClean(t, w, x);
    CleanTextIsLeftAlone(x);
    SlashFormIsNotNginx(t, w);
    LongForm(x, x, x, x, units);
    SplitAtSlash(t, w, x);
    StripSigned(t);
    StripNothing(w);
    PartsReadBack(t, Signed(t), w, units);
  }

  lemma CompactPer()
    ensures Compact("per ") == "per" && Compact(" ") == ""
  {
    assert "per "[1..] == "er " && "er "[1..] == "r " && "r "[1..] == " " && " "[1..] == "";
  }

  lemma CompactPerForm(t: int, w: string)
    ensures Compact((Signed(t) + " ") + ("per " + w)) == Signed(t) + ("per" + Compact(w))
  {
    CompactConcat(Signed(t) + " ", "per " + w);
    CompactConcat(Signed(t), " ");
    CompactConcat("per ", w);
    SignedIsPlain(t);
    CompactSpaceless(Signed(t));
    CompactPer();
  }

  lemma PerFormIsNotNginx(t: int, c: string)
    ensures ParseNginx(Signed(t) + ("per" + c)) == ValueError
  {
    var y := Signed(t) + ("per" + c);
    if t < 0 {
      assert y[0] == '-';
    } else {
      LeadingDigitsOf(Signed(t), "per" + c);
      assert y[|Signed(t)|] == 'p';
      assert y[|Signed(t)|..] == "per" + c;
    }
  }

  lemma PerFormIsLowerAndTrim(t: int, w: string, x: string)
    requires w != [] && Plain(w) && !IsSpace(w[|w| - 1]) && x == (Signed(t) + " ") + ("per " + w)
    ensures Strip(x) == x && Lower(x) == x
  {
    SignedIsPlain(t);
    assert x[0] == Signed(t)[0] && x[|x| - 1] == w[|w| - 1];
    StripNothing(x);
    LowerOfLower(x);
  }

  lemma PerFormGetsASlash(t: int, w: string)
    requires Plain(w)
    ensures PerToSlash((Signed(t) + " ") + ("per " + w)) == (Signed(t) + " ") + ("/" + w)
  {
    SignedIsPlain(t);
    PerToSlashSkips(Signed(t) + " ", "per " + w);
    assert "per " <= "per " + w && ("per " + w)[4..] == w;
    PerToSlashOfPlain(w);
  }

  /** The printed form with the word "per" parses part by part. */
  lemma ParsePerForm(t: int, w: string, units: map<string, int>)
    requires w != [] && Plain(w) && !IsSpace(w[0]) && !IsSpace(w[|w| - 1])
    ensures ParseWith((Signed(t) + " ") + ("per " + w), units) == Assemble(t, ParsePeriod(w, units))
  {
    var x := (Signed(t) + " ") + ("per " + w);
    var r := (Signed(t) + " ") + ("/" + w);
    PerFormIsLowerAndTrim(t, w, x);
    CompactPerForm(t, w);
    PerFormIsNotNginx(t, Compact(w));
    PerFormGetsASlash(t, w);
    LongForm(x, x, Signed(t) + ("per" + Compact(w)), r, units);
    SplitPerForm(t, w, r);
    StripNothing(w);
    PartsReadBack(t, r[..|Signed(t)| + 1], w, units);
  }

  lemma SplitPerForm(t: int, w: string, r: string)
    requires r == (Signed(t) + " ") + ("/" + w)
    ensures IndexOf(r, '/', 0) == |Signed(t)| + 1
    ensures Strip(r[..|Signed(t)| + 1]) == Signed(t) && r[|Signed(t)| + 2..] == w
  {
    hide Signed, Strip, IndexOf;
    SignedIsPlain(t);
    var left := Signed(t) + " ";
    assert r[..|left|] == left && r[|left|] == '/' && r[|left| + 1..] == w;
    assert forall j :: 0 <= j < |left| ==> r[j] == left[j] != '/';
    FirstSlash(r, |left|);
    StripBlanks("", Signed(t), " ");
    assert "" + left == left;
  }

  lemma FirstSlash(r: string, n: nat)
    requires n < |r| && r[n] == '/' && forall j :: 0 <= j < n ==> r[j] != '/'
    ensures IndexOf(r, '/', 0) == n
  {
  }

  // ------------------------------------------------------------- reading back units

  lemma CountedPeriod(w: string, k: nat, unit: string, units: map<string, int>)
    requires ToInt(w) == None && LeadingDigits(w) == k && 0 < k && StripLeft(w[k..]) == unit
    requires unit != [] && AllLetters(unit) && unit in units
    ensures ParsePeriod(w, units) == Some(DecimalValue(w[..k]) * units[unit])
  {
  }

  lemma StripGap(gap: string, unit: string)
    requires unit != [] && AllLetters(unit) && (gap == "" || gap == " ")
    ensures StripLeft(gap + unit) == unit && !IsDigit((gap + unit)[0])
  {
    if gap == " " { assert (gap + unit)[1..] == unit; } else { assert gap + unit == unit; }
  }

  /** A count in front of a known unit, with or without a space between them. */
  lemma PeriodWithCount(n: nat, gap: string, unit: string, units: map<string, int>)
    requires unit != [] && AllLetters(unit) && unit in units && (gap == "" || gap == " ")
    ensures ParsePeriod(Decimal(n) + (gap + unit), units) == Some(n * units[unit])
  {
    var tail := gap + unit;
    var w := Decimal(n) + tail;
    assert w[|w| - 1] == unit[|unit| - 1];
    WordIsNoInteger(w);
    StripGap(gap, unit);
    LeadingDigitsOf(Decimal(n), tail);
    assert w[..|Decimal(n)|] == Decimal(n) && w[|Decimal(n)|..] == tail;
    ValueOfDecimal(n);
    CountedPeriod(w, |Decimal(n)|, unit, units);
  }

  lemma PeriodWithoutCount(unit: string, units: map<string, int>)
    requires unit != [] && AllLetters(unit) && unit in units
    ensures ParsePeriod(unit, units) == Some(units[unit])
  {
    WordIsNoInteger(unit);
  }

  lemma NegativePeriodIsRefused(n: int, rest: string, units: map<string, int>)
    requires n < 0 && rest != [] && 'a' <= rest[|rest| - 1] <= 'z'
    ensures ParsePeriod(Signed(n) + rest, units) == None
  {
    var w := Signed(n) + rest;
    assert w[0] == '-';
    WordIsNoInteger(w);
  }

  predicate Known(unit: string, seconds: int) {
    && |unit| >= 2 && AllLetters(unit) && Plain(unit) && unit in UNITS && UNITS[unit] == seconds
  }

  lemma SecondsAreKnown()
    ensures Known("second", 1) && Known("seconds", 1)
  {
  }

  lemma MinutesAreKnown()
    ensures Known("minute", 60) && Known("minutes", 60)
  {
  }

  lemma HoursAreKnown()
    ensures Known("hour", 3600) && Known("hours", 3600)
  {
  }

  lemma DaysAreKnown()
    ensures Known("day", 86400) && Known("days", 86400)
  {
  }

  lemma MonthsAreKnown()
    ensures Known("month", 2592000) && Known("months", 2592000)
  {
  }

  lemma YearsAreKnown()
    ensures Known("year", 31536000) && Known("years", 31536000)
  {
  }

  lemma NamesAreKnown()
    ensures Known("year", 31536000) && Known("month", 2592000) && Known("day", 86400) && Known("hour", 3600)
    ensures Known("minute", 60) && Known("second", 1)
    ensures Known("years", 31536000) && Known("months", 2592000) && Known("days", 86400)
    ensures Known("hours", 3600) && Known("minutes", 60) && Known("seconds", 1)
  {
    SecondsAreKnown();
    MinutesAreKnown();
    HoursAreKnown();
    DaysAreKnown();
    MonthsAreKnown();
    YearsAreKnown();
  }

  lemma UnitIsKnown(k: nat, n: int)
    requires k < |FRIENDLY|
    ensures Known(FRIENDLY[k].1 + (if n != 1 then "s" else ""), FRIENDLY[k].0)
  {
    NamesAreKnown();
    assert "year" + "s" == "years" && "month" + "s" == "months" && "day" + "s" == "days";
    assert "hour" + "s" == "hours" && "minute" + "s" == "minutes";
    var name := FRIENDLY[k].1;
    assert name + "" == name;
  }

  // ------------------------------------------------------------------- the results

  lemma FriendlyFormReadsBack(t: int, s: int)
    requires s in {1, 60, 3600, 86400, 2592000, 31536000}
    ensures Parse(Print(t, s)) == Parsed(Rate(t, s))
  {
    NamesAreKnown();
    var unit := UnitName(s);
    assert Known(unit, s);
    ParseSlashForm(t, unit, UNITS);
    PeriodWithoutCount(unit, UNITS);
  }

  lemma CountedForm(t: int, n: int, unit: string, seconds: int)
    requires Known(unit, seconds)
    ensures Parse(Signed(t) + "/" + (Signed(n) + unit)) == if n >= 0 then Parsed(Rate(t, n * seconds)) else ValueError
  {
    var w := Signed(n) + unit;
    SignedIsPlain(n);
    ParseSlashForm(t, w, UNITS);
    if n >= 0 {
      assert "" + unit == unit;
      PeriodWithCount(n, "", unit, UNITS);
    } else {
      NegativePeriodIsRefused(n, unit, UNITS);
    }
  }

  lemma MultipleFormReadsBack(t: int, s: int)
    requires s !in {1, 60, 3600, 86400, 2592000, 31536000} && Multiple(s, FRIENDLY).Some?
    ensures Parse(Print(t, s)) == if s >= 0 then Parsed(Rate(t, s)) else ValueError
  {
    var k := Multiple(s, FRIENDLY).value;
    var base := FRIENDLY[k].0;
    var n := s / base;
    var unit := FRIENDLY[k].1 + (if n != 1 then "s" else "");
    UnitIsKnown(k, n);
    assert n * base == s && base > 0;
    assert n >= 0 <==> s >= 0;
    assert Signed(n) + FRIENDLY[k].1 + (if n != 1 then "s" else "") == Signed(n) + unit;
    CountedForm(t, n, unit, base);
  }

  lemma SpelledOutForm(t: int, s: int)
    ensures Parse((Signed(t) + " ") + ("per " + (Signed(s) + (" " + "seconds"))))
            == if s >= 0 then Parsed(Rate(t, s)) else ValueError
  {
    SecondsAreKnown();
    SignedIsPlain(s);
    var tail := " " + "seconds";
    var w := Signed(s) + tail;
    assert w[|w| - 1] == 's' && Plain(tail);
    ParsePerForm(t, w, UNITS);
    if s >= 0 {
      PeriodWithCount(s, " ", "seconds", UNITS);
    } else {
      NegativePeriodIsRefused(s, tail, UNITS);
    }
  }

  lemma Regroup(a: string, b: string)
    ensures a + " per " + b + " seconds" == (a + " ") + ("per " + (b + (" " + "seconds")))
  {
    assert " per " == " " + "per " && " seconds" == " " + "seconds";
  }

  lemma SecondsFormReadsBack(t: int, s: int)
    requires s !in {1, 60, 3600, 86400, 2592000, 31536000} && Multiple(s, FRIENDLY).None?
    ensures Parse(Print(t, s)) == if s >= 0 then Parsed(Rate(t, s)) else ValueError
  {
    SpelledOutForm(t, s);
    Regroup(Signed(t), Signed(s));
  }

  /**
    Printing a limit and parsing it again gives back the same count and the same period exactly
    when the period is not negative; a negative period prints as something the parser refuses.
   */
  lemma PrintedRateReadsBackIff(t: int, s: int)
    ensures Parse(Print(t, s)) == (if s >= 0 then Parsed(Rate(t, s)) else ValueError)
  {
    if s in {1, 60, 3600, 86400, 2592000, 31536000} {
      FriendlyFormReadsBack(t, s);
    } else if Multiple(s, FRIENDLY).Some? {
      MultipleFormReadsBack(t, s);
    } else {
      SecondsFormReadsBack(t, s);
    }
  }

  /** Printing is injective on the limits it can express, and normalises any accepted text. */
  lemma PrintingIsStable(text: string)
    requires Parse(text).Parsed? && Parse(text).rate.seconds >= 0
    ensures var rate := Parse(text).rate;
            Parse(Print(rate.times, rate.seconds)) == Parse(text)
  {
    PrintedRateReadsBackIff(Parse(text).rate.times, Parse(text).rate.seconds);
  }

  /** The parser itself accepts negative periods, so the condition is not empty. */
  lemma NegativePeriodIsAccepted()
    ensures Parse("5/-60") == Parsed(Rate(5, -60)) && Parse(Print(5, -60)) == ValueError
  {
    var x := "5/-60";
    assert Signed(5) == "5" && Signed(-60) == "-60" by {
      assert Decimal(5) == "5" && Decimal(6) == "6" && Decimal(60) == "60";
    }
    assert x == Signed(5) + "/" + Signed(-60);
    ParseSlashForm(5, Signed(-60), UNITS);
    ToIntOfSigned(-60);
    PrintedRateReadsBackIff(5, -60);
  }

  // ------------------------------------------------------------- what the units mean

  /** The spellings of a unit, with its length in seconds: months have thirty days and years 365. */
  predicate Spells(unit: string, seconds: int) {
    || (seconds == 1 && unit in {"s", "sec", "secs", "second", "seconds"})
    || (seconds == 60 && unit in {"m", "min", "mins", "minute", "minutes"})
    || (seconds == 60 * 60 && unit in {"h", "hr", "hrs", "hour", "hours"})
    || (seconds == 24 * 60 * 60 && unit in {"d", "day", "days"})
    || (seconds == 30 * 24 * 60 * 60 && unit in {"mo", "mon", "month", "months"})
    || (seconds == 365 * 24 * 60 * 60 && unit in {"y", "yr", "yrs", "year", "years"})
  }

  ghost predicate IsWordOfUnit(unit: string) {
    unit != "" && AllLetters(unit) && 'p' !in unit
  }

  lemma SecondsAreWords(unit: string)
    requires unit in {"s", "sec", "secs", "second", "seconds"}
    ensures IsWordOfUnit(unit)
  {
  }

  lemma MinutesAreWords(unit: string)
    requires unit in {"m", "min", "mins", "minute", "minutes"}
    ensures IsWordOfUnit(unit)
  {
  }

  lemma HoursAreWords(unit: string)
    requires unit in {"h", "hr", "hrs", "hour", "hours"}
    ensures IsWordOfUnit(unit)
  {
  }

  lemma DaysAreWords(unit: string)
    requires unit in {"d", "day", "days"}
    ensures IsWordOfUnit(unit)
  {
  }

  lemma MonthsAreWords(unit: string)
    requires unit in {"mo", "mon", "month", "months"}
    ensures IsWordOfUnit(unit)
  {
  }

  lemma YearsAreWords(unit: string)
    requires unit in {"y", "yr", "yrs", "year", "years"}
    ensures IsWordOfUnit(unit)
  {
  }

  lemma SpellingsAreWords(unit: string, seconds: int)
    requires Spells(unit, seconds)
    ensures IsWordOfUnit(unit)
  {
    hide IsWordOfUnit;
    if seconds == 1 { SecondsAreWords(unit); }
    if seconds == 60 { MinutesAreWords(unit); }
    if seconds == 3600 { HoursAreWords(unit); }
    if seconds == 86400 { DaysAreWords(unit); }
    if seconds == 2592000 { MonthsAreWords(unit); }
    if seconds == 31536000 { YearsAreWords(unit); }
  }

  lemma SpellingsAreKnown(unit: string, seconds: int)
    ensures Spells(unit, seconds) <==> unit in UNITS && UNITS[unit] == seconds
  {
  }

  lemma WordsOfUnitsArePlain(unit: string)
    requires IsWordOfUnit(unit)
    ensures unit != "" && AllLetters(unit) && Plain(unit) && Spaceless(unit)
  {
  }

  /** A count of requests and a unit, with a slash or the word "per" between them. */
  lemma LongFormIsRead(t: int, unit: string, seconds: int)
    requires Spells(unit, seconds)
    ensures |unit| >= 2 ==> Parse(Signed(t) + "/" + unit) == Parsed(Rate(t, seconds))
    ensures Parse((Signed(t) + " ") + ("per " + unit)) == Parsed(Rate(t, seconds))
  {
    hide Spells, ParseWith, ParsePeriod, AllLetters, IsWordOfUnit, Signed;
    SpellingsAreKnown(unit, seconds);
    SpellingsAreWords(unit, seconds);
    WordsOfUnitsArePlain(unit);
    PeriodWithoutCount(unit, UNITS);
    if |unit| >= 2 { ParseSlashForm(t, unit, UNITS); }
    ParsePerForm(t, unit, UNITS);
  }

  /** The same with a count of units. */
  lemma CountedFormIsRead(t: int, n: nat, unit: string, seconds: int)
    requires Spells(unit, seconds)
    ensures Parse(Signed(t) + "/" + (Decimal(n) + unit)) == Parsed(Rate(t, n * seconds))
  {
    hide Spells, ParseWith, ParsePeriod, AllLetters, IsWordOfUnit, Decimal;
    SpellingsAreKnown(unit, seconds);
    SpellingsAreWords(unit, seconds);
    WordsOfUnitsArePlain(unit);
    PeriodWithCount(n, "", unit, UNITS);
    assert "" + unit == unit;
    SignedIsPlain(n);
    ParseSlashForm(t, Decimal(n) + unit, UNITS);
  }

  lemma NginxForm(n: nat, r: string, c: char, seconds: int)
    requires c in "smhd" && Spells([c], seconds) && (r == "" || r == "r")
    ensures ParseNginx(Decimal(n) + (r + ("/" + [c]))) == Parsed(Rate(n, seconds))
  {
    hide ParseNginx, Decimal, Spells;
    if r == "r" {
      NginxTail(n, "r/" + [c], c, seconds);
      assert "r" + ("/" + [c]) == "r/" + [c];
    } else {
      NginxTail(n, "/" + [c], c, seconds);
      assert "" + ("/" + [c]) == "/" + [c];
    }
  }

  lemma NginxTail(n: nat, tail: string, c: char, seconds: int)
    requires c in "smhd" && Spells([c], seconds) && (tail == "/" + [c] || tail == "r/" + [c])
    ensures ParseNginx(Decimal(n) + tail) == Parsed(Rate(n, seconds))
  {
    hide LeadingDigits, DecimalValue, Decimal;
    var s := Decimal(n) + tail;
    assert tail[0] == 'r' || tail[0] == '/';
    LeadingDigitsOf(Decimal(n), tail);
    ValueOfDecimal(n);
    assert s[..|Decimal(n)|] == Decimal(n) && s[|Decimal(n)|..] == tail && s[|Decimal(n)|] == tail[0];
    if tail[0] == 'r' { assert s[|Decimal(n)| + 1..] == "/" + [c]; }
  }

  // ------------------------------------------------------------- white space, case, signs

  predicate Blank(s: string) {
    forall i :: 0 <= i < |s| ==> IsSpace(s[i])
  }

  lemma {:induction false} CompactBlank(s: string)
    requires Blank(s)
    ensures Compact(s) == ""
  {
    if s != [] { CompactBlank(s[1..]); }
  }

  lemma {:induction false} CompactStripLeft(s: string)
    ensures Compact(StripLeft(s)) == Compact(s)
  {
    if s != [] && IsSpace(s[0]) { CompactStripLeft(s[1..]); }
  }

  lemma {:induction false} CompactStripRight(s: string)
    ensures Compact(StripRight(s)) == Compact(s)
  {
    if s != [] && IsSpace(s[|s| - 1]) {
      var last := |s| - 1;
      CompactStripRight(s[..last]);
      CompactConcat(s[..last], [s[last]]);
      CompactBlank([s[last]]);
      assert s == s[..last] + [s[last]];
    }
  }

  lemma LowerOfPrepended(c: char, rest: string)
    ensures Lower([c] + rest) == [LowerChar(c)] + Lower(rest)
  {
    var low := Lower([c] + rest);
    forall i | 0 <= i < |low| ensures low[i] == ([LowerChar(c)] + Lower(rest))[i] {}
  }

  lemma LowerKeepsSpace(c: char)
    ensures IsSpace(LowerChar(c)) <==> IsSpace(c)
  {
  }

  lemma CompactOfPrepended(c: char, rest: string)
    ensures Compact([c] + rest) == if IsSpace(c) then Compact(rest) else [c] + Compact(rest)
  {
    assert ([c] + rest)[1..] == rest;
  }

  lemma {:induction false} CompactOfLower(s: string)
    ensures Compact(Lower(s)) == Lower(Compact(s))
  {
    hide Compact, Lower, LowerChar, IsSpace;
    if s != [] {
      var c, rest := s[0], s[1..];
      assert s == [c] + rest;
      CompactOfLower(rest);
      LowerOfPrepended(c, rest);
      LowerOfPrepended(c, Compact(rest));
      LowerKeepsSpace(c);
      CompactOfPrepended(c, rest);
      CompactOfPrepended(LowerChar(c), Lower(rest));
    } else {
      EmptyStaysEmpty();
    }
  }

  lemma EmptyStaysEmpty()
    ensures Compact("") == "" && Lower("") == ""
  {
  }

  /** The short form, as in `40r/m` or `40/m`, may be in capitals and have white space in between. */
  lemma ShortFormInAnyDress(n: nat, r: string, c: char, seconds: int, gaps: seq<string>)
    requires c in "smhdSMHD" && Spells([LowerChar(c)], seconds) && r in {"", "r", "R"}
    requires |gaps| == 5 && forall i :: 0 <= i < 5 ==> Blank(gaps[i])
    ensures Parse(gaps[0] + (Decimal(n) + (gaps[1] + (r + (gaps[2] + ("/" + (gaps[3] + ([c] + gaps[4]))))))))
            == Parsed(Rate(n, seconds))
  {
    hide ParseNginx, Strip, Lower, Decimal, ParseLong, PerToSlash, Spells;
    var x := gaps[0] + (Decimal(n) + (gaps[1] + (r + (gaps[2] + ("/" + (gaps[3] + ([c] + gaps[4])))))));
    DressIsTakenOff(n, r, c, gaps);
    CompactOfStripped(x);
    CompactOfLower(Strip(x));
    var plain := Decimal(n) + (r + ("/" + [c]));
    LowerShortForm(n, r, c);
    NginxForm(n, if r == "" then "" else "r", LowerChar(c), seconds);
  }

  lemma CompactOfStripped(s: string)
    ensures Compact(Strip(s)) == Compact(s)
  {
    CompactStripRight(StripLeft(s));
    CompactStripLeft(s);
  }

  lemma DressIsTakenOff(n: nat, r: string, c: char, gaps: seq<string>)
    requires c in "smhdSMHD" && r in {"", "r", "R"}
    requires |gaps| == 5 && forall i :: 0 <= i < 5 ==> Blank(gaps[i])
    ensures Compact(gaps[0] + (Decimal(n) + (gaps[1] + (r + (gaps[2] + ("/" + (gaps[3] + ([c] + gaps[4]))))))))
            == Decimal(n) + (r + ("/" + [c]))
  {
    hide Compact, Decimal;
    forall i | 0 <= i < 5 ensures Compact(gaps[i]) == "" { CompactBlank(gaps[i]); }
    SignedIsPlain(n);
    CompactSpaceless(Decimal(n));
    CompactSpaceless(r);
    CompactSpaceless("/");
    CompactSpaceless([c]);
    var t6 := [c] + gaps[4];
    var t5 := gaps[3] + t6;
    var t4 := "/" + t5;
    var t3 := gaps[2] + t4;
    var t2 := r + t3;
    var t1 := gaps[1] + t2;
    var t0 := Decimal(n) + t1;
    CompactConcat([c], gaps[4]);
    CompactConcat(gaps[3], t6);
    CompactConcat("/", t5);
    CompactConcat(gaps[2], t4);
    CompactConcat(r, t3);
    CompactConcat(gaps[1], t2);
    CompactConcat(Decimal(n), t1);
    CompactConcat(gaps[0], t0);
  }

  lemma LowerShortForm(n: nat, r: string, c: char)
    requires c in "smhdSMHD" && r in {"", "r", "R"}
    ensures Lower(Decimal(n) + (r + ("/" + [c]))) == Decimal(n) + ((if r == "" then "" else "r") + ("/" + [LowerChar(c)]))
  {
    hide Decimal;
    SignedIsPlain(n);
    var plain, low := Decimal(n) + (r + ("/" + [c])), if r == "" then "" else "r";
    assert |r| == |low|;
    assert Lower(plain) == Decimal(n) + (low + ("/" + [LowerChar(c)]));
  }

  /** Numbers may have a plus sign, and single underscores between digits. */
  lemma {:induction false} UnderscoreIsSkipped(a: string, b: string)
    requires a != "" && b != "" && AllDigits(a) && AllDigits(b)
    ensures Literal(a + ("_" + b)) == Some(DecimalValue(a + b)) == Literal(a + b)
  {
    var last := |b| - 1;
    var s, t := a + ("_" + b), a + b;
    assert s[|s| - 1] == b[last] && t[|t| - 1] == b[last];
    DigitsAreRead(a);
    if last == 0 {
      assert s[|s| - 2] == '_' && s[..|s| - 2] == a;
      assert t[..|t| - 1] == a && IsDigit(t[|t| - 2]);
    } else {
      UnderscoreIsSkipped(a, b[..last]);
      assert s[..|s| - 1] == a + ("_" + b[..last]) && s[|s| - 2] == b[last - 1];
      assert t[..|t| - 1] == a + b[..last] && t[|t| - 2] == b[last - 1];
    }
  }

  lemma {:induction false} DigitsAreRead(a: string)
    requires a != "" && AllDigits(a)
    ensures Literal(a) == Some(DecimalValue(a))
  {
    if |a| > 1 {
      DigitsAreRead(a[..|a| - 1]);
      assert IsDigit(a[|a| - 2]);
    } else {
      assert a[..0] == [];
    }
  }

  lemma PlusSignIsSkipped(left: string, n: nat, right: string)
    requires Blank(left) && Blank(right)
    ensures ToInt(left + (("+" + Decimal(n)) + right)) == Some(n)
  {
    hide Decimal, Literal;
    var s := "+" + Decimal(n);
    SignedIsPlain(n);
    StripBlanks(left, s, right);
    LiteralOfDecimal(n);
    assert s[1..] == Decimal(n);
  }

  lemma {:induction false} StripLeftBlank(left: string, t: string)
    requires Blank(left) && t != "" && !IsSpace(t[0])
    ensures StripLeft(left + t) == t
  {
    if left == "" {
      assert left + t == t;
    } else {
      assert (left + t)[1..] == left[1..] + t;
      StripLeftBlank(left[1..], t);
    }
  }

  lemma {:induction false} StripRightBlank(s: string, right: string)
    requires Blank(right) && s != "" && !IsSpace(s[|s| - 1])
    ensures StripRight(s + right) == s
  {
    if right == "" {
      assert s + right == s;
    } else {
      var last := |right| - 1;
      assert (s + right)[..|s + right| - 1] == s + right[..last];
      StripRightBlank(s, right[..last]);
    }
  }

  lemma StripBlanks(left: string, s: string, right: string)
    requires Blank(left) && Blank(right) && s != "" && !IsSpace(s[0]) && !IsSpace(s[|s| - 1])
    ensures Strip(left + (s + right)) == s
  {
    StripLeftBlank(left, s + right);
    StripRightBlank(s, right);
  }
}
