/**
  The names of numbered settings.  A setting that may be given several times is written `BASE`
  for its first occurrence and `BASE_n` for the others, optionally behind the name of the server
  it belongs to.
 */
module SlotKeys {
  import opened Text
  import opened Wrappers

  /** From the settings that may be repeated to the group they are repeated with. */
  type Lookup = map<string, string>

  datatype SlotKey = SlotKey(base: string, number: nat, prefixed: bool)

  function Prefix(host: string): string {
    host + "_"
  }

  function Numbered(base: string, number: nat): string {
    if number == 0 then base else base + "_" + Decimal(number)
  }

  /** How a slot is written back. */
  function Print(k: SlotKey, host: string): string {
    if k.prefixed then Prefix(host) + Numbered(k.base, k.number) else Numbered(k.base, k.number)
  }

  function ParseSetting(setting: string, lookup: Lookup, prefixed: bool): Option<SlotKey> {
    if setting in lookup then Some(SlotKey(setting, 0, prefixed))
    else
      var underscore := LastIndexOf(setting, '_');
      if underscore > 0 then
        var base, suffix := setting[..underscore], setting[underscore + 1..];
        if suffix != "" && AllDigits(suffix) && base in lookup then
          Some(SlotKey(base, DecimalValue(suffix), prefixed))
        else None
      else None
  }

  /** How a key of a service is recognised as a slot. */
  function Parse(key: string, lookup: Lookup, host: string): Option<SlotKey> {
    if Prefix(host) <= key then ParseSetting(key[|Prefix(host)|..], lookup, true)
    else ParseSetting(key, lookup, false)
  }

  /** No setting is empty, reads like a numbered form of another one, or is hidden by the server's name. */
  ghost predicate Unambiguous(lookup: Lookup, host: string) {
    forall b :: b in lookup ==>
      && b != ""
      && !(Prefix(host) <= b + "_")
      && forall n: nat :: n > 0 ==> Numbered(b, n) !in lookup
  }

  ghost predicate ReadsBack(k: SlotKey, lookup: Lookup, host: string) {
    Parse(Print(k, host), lookup, host) == Some(k)
  }

  lemma SettingReadsBack(base: string, number: nat, lookup: Lookup, prefixed: bool)
    requires base in lookup && base != "" && (number > 0 ==> Numbered(base, number) !in lookup)
    ensures ParseSetting(Numbered(base, number), lookup, prefixed) == Some(SlotKey(base, number, prefixed))
  {
    if number > 0 {
      var s := Numbered(base, number);
      assert s == base + ['_'] + Decimal(number);
      LastIndexOfSeparator(base, '_', Decimal(number));
      assert s[..|base|] == base && s[|base| + 1..] == Decimal(number);
      ValueOfDecimal(number);
    }
  }

  /** Any number may be written behind the setting, leading zeros included, unless that is a setting itself. */
  lemma AnyNumberIsRead(base: string, digits: string, lookup: Lookup, host: string)
    requires base in lookup && base != "" && digits != "" && AllDigits(digits)
    requires base + "_" + digits !in lookup
    ensures Parse(host + "_" + (base + "_" + digits), lookup, host) == Some(SlotKey(base, DecimalValue(digits), true))
    ensures !(host + "_" <= base + "_" + digits) ==>
              Parse(base + "_" + digits, lookup, host) == Some(SlotKey(base, DecimalValue(digits), false))
    ensures Parse(host + "_" + base, lookup, host) == Some(SlotKey(base, 0, true))
  {
    hide DecimalValue;
    var s := base + "_" + digits;
    assert s == base + ['_'] + digits;
    LastIndexOfSeparator(base, '_', digits);
    assert s[..|base|] == base && s[|base| + 1..] == digits;
    PrefixIsStripped(host, s);
    PrefixIsStripped(host, base);
    assert Prefix(host) == host + "_";
  }

  /** The server prefix ends in an underscore, so it cannot end inside the digits of a number. */
  lemma PrefixOfNumbered(base: string, number: nat, host: string)
    requires Prefix(host) <= Numbered(base, number)
    ensures Prefix(host) <= base + "_"
  {
    var p, s := Prefix(host), Numbered(base, number);
    var b := base + "_";
    assert p[|p| - 1] == '_' && p[|p| - 1] == s[|p| - 1];
    if number > 0 {
      assert s == b + Decimal(number);
      assert forall j :: |b| <= j < |s| ==> IsDigit(s[j]);
    } else {
      assert s <= b;
    }
  }

  lemma PrefixIsStripped(host: string, setting: string)
    ensures Prefix(host) <= Prefix(host) + setting && (Prefix(host) + setting)[|Prefix(host)|..] == setting
  {
  }

  lemma UnambiguousReadsBack(k: SlotKey, lookup: Lookup, host: string)
    requires Unambiguous(lookup, host) && k.base in lookup
    ensures ReadsBack(k, lookup, host)
  {
    var s := Numbered(k.base, k.number);
    SettingReadsBack(k.base, k.number, lookup, k.prefixed);
    if k.prefixed {
      PrefixIsStripped(host, s);
    } else if Prefix(host) <= s {
      PrefixOfNumbered(k.base, k.number, host);
    }
  }

  lemma EmptyBaseIsLost(lookup: Lookup, host: string)
    ensures !ReadsBack(SlotKey("", 1, false), lookup, host)
  {
    var s := Print(SlotKey("", 1, false), host);
    assert s == "_1" by { assert Decimal(1) == "1"; }
    assert s == [] + ['_'] + "1";
    LastIndexOfSeparator([], '_', "1");
  }

  lemma HiddenBaseIsLost(b: string, lookup: Lookup, host: string)
    requires Prefix(host) <= b + "_"
    ensures !ReadsBack(SlotKey(b, 0, false), lookup, host) || !ReadsBack(SlotKey(b, 1, false), lookup, host)
  {
    if !(Prefix(host) <= b) {
      assert Prefix(host) == b + "_";
      assert Numbered(b, 1) == b + "_" + Decimal(1);
      assert Prefix(host) <= Numbered(b, 1);
    }
  }

  lemma NumberedBaseIsLost(b: string, n: nat, lookup: Lookup, host: string)
    requires n > 0 && Numbered(b, n) in lookup
    ensures !ReadsBack(SlotKey(b, n, false), lookup, host)
  {
  }

  /**
    Every slot of every repeatable setting reads back as itself, with its number and its prefix
    flag, exactly when the settings are unambiguous next to the name of the server.
   */
  lemma SlotsReadBackIff(lookup: Lookup, host: string)
    ensures (forall k: SlotKey :: k.base in lookup ==> ReadsBack(k, lookup, host)) <==> Unambiguous(lookup, host)
  {
    if Unambiguous(lookup, host) {
      forall k: SlotKey | k.base in lookup ensures ReadsBack(k, lookup, host) {
        UnambiguousReadsBack(k, lookup, host);
      }
    } else {
      var b :| && b in lookup
               && !(b != "" && !(Prefix(host) <= b + "_") && forall n: nat :: n > 0 ==> Numbered(b, n) !in lookup);
      if b == "" {
        EmptyBaseIsLost(lookup, host);
        assert SlotKey("", 1, false).base in lookup;
      } else if Prefix(host) <= b + "_" {
        HiddenBaseIsLost(b, lookup, host);
        assert SlotKey(b, 0, false).base in lookup && SlotKey(b, 1, false).base in lookup;
      } else {
        var n: nat :| n > 0 && Numbered(b, n) in lookup;
        NumberedBaseIsLost(b, n, lookup, host);
        assert SlotKey(b, n, false).base in lookup;
      }
    }
  }

  /** A host named like a repeatable setting breaks the round trip even though no setting starts with it. */
  lemma HostNamedLikeASetting(base: string, group: string)
    requires base != ""
    ensures !ReadsBack(SlotKey(base, 1, false), map[base := group], base)
  {
    assert Numbered(base, 1) == base + "_" + Decimal(1);
    assert Prefix(base) <= Numbered(base, 1);
  }
}
