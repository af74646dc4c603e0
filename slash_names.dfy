/** The validation the command-declaration tool applies to the names and
  * descriptions of application commands before it builds them: parsing a
  * maybe-localised field, checking its lengths and its characters, and
  * range-checking snowflake ids. */
module SlashNames {
  import opened Wrappers
  import Strings
  import Components
  import Localise

  type Field = Localise.MaybeLocalised<string>

  /** A string is truthy when it is not empty. */
  predicate NonEmpty(s: string)
  {
    |s| != 0
  }

  /** `_MaybeLocalised.parse` as written: when a table has no truthy
    * "default" entry its first KEY (a locale name) becomes the value. */
  function ParseAsWritten(fieldName: string, raw: Localise.Raw<string>): (r: Result<Field>)
    ensures r.Failure? <==> raw.Mapping? && |raw.entries| == 0
    ensures r.Failure? ==> r.error == StopIteration
    ensures raw.Plain? ==> r == Success(Localise.MaybeLocalised(fieldName, raw.value, []))
    ensures raw.Mapping? && r.Success? ==>
      var d := Components.Lookup(raw.entries, Localise.DEFAULT);
      r.value.value == (if d.Some? && NonEmpty(d.value) then d.value else raw.entries[0].0)
    ensures raw.Mapping? && r.Success? ==>
      var p := Localise.Parse(fieldName, raw, NonEmpty);
      p.Success? && r.value.fieldName == fieldName && r.value.localisations == p.value.localisations
  {
    match raw
    case Plain(v) => Success(Localise.MaybeLocalised(fieldName, v, []))
    case Mapping(entries) =>
      if |entries| == 0 then Failure(StopIteration)
      else
        var d := Components.Lookup(entries, Localise.DEFAULT);
        var value := if d.Some? && NonEmpty(d.value) then d.value else entries[0].0;
        Success(Localise.MaybeLocalised(fieldName, value, Components.RemoveKey(entries, Localise.DEFAULT)))
  }

  /** A table without a "default" entry: the as-written parse names the
    * command after the locale, the corrected parse after that locale's
    * value. */
  lemma ParseFirstKey()
    ensures ParseAsWritten("name", Localise.Mapping([("en-US", "ping")])).value.value == "en-US"
    ensures Parse("name", Localise.Mapping([("en-US", "ping")])).value.value == "ping"
  {
    var entries := [("en-US", "ping")];
    assert Components.Lookup(entries, Localise.DEFAULT).None? by {
      assert Components.Keys(entries) == {"en-US"};
      assert "en-US"[0] != Localise.DEFAULT[0];
    }
  }

  /** `_MaybeLocalised.parse` corrected to take the first value, as the
    * shared localisation helper does. */
  function Parse(fieldName: string, raw: Localise.Raw<string>): (r: Result<Field>)
    ensures r.Failure? <==> raw.Mapping? && |raw.entries| == 0
    ensures raw.Mapping? && r.Success? ==>
      var d := Components.Lookup(raw.entries, Localise.DEFAULT);
      r.value.value == (if d.Some? && NonEmpty(d.value) then d.value else raw.entries[0].1)
      && Localise.DEFAULT !in Components.Keys(r.value.localisations)
  {
    Localise.Parse(fieldName, raw, NonEmpty)
  }

  /** The longest length among the values. */
  function MaxLength(vs: seq<string>): (m: nat)
    requires |vs| != 0
    ensures forall i :: 0 <= i < |vs| ==> |vs[i]| <= m
    ensures exists i :: 0 <= i < |vs| && |vs[i]| == m
  {
    if |vs| == 1 then |vs[0]|
    else
      var rest := MaxLength(vs[1..]);
      assert forall i :: 1 <= i < |vs| ==> vs[i] == vs[1..][i - 1];
      if |vs[0]| >= rest then |vs[0]| else rest
  }

  /** The shortest length among the values. */
  function MinLength(vs: seq<string>): (m: nat)
    requires |vs| != 0
    ensures forall i :: 0 <= i < |vs| ==> m <= |vs[i]|
    ensures exists i :: 0 <= i < |vs| && |vs[i]| == m
  {
    if |vs| == 1 then |vs[0]|
    else
      var rest := MinLength(vs[1..]);
      assert forall i :: 1 <= i < |vs| ==> vs[i] == vs[1..][i - 1];
      if |vs[0]| <= rest then |vs[0]| else rest
  }

  /** `str.capitalize` on ASCII text: the first letter upper case, the rest
    * lower case. */
  function Capitalize(s: string): (r: string)
    ensures |r| == |s|
    ensures |s| != 0 ==> r[0] == Strings.Upper(s[0])
    ensures forall i :: 0 < i < |s| ==> r[i] == Strings.Lower(s[i])
  {
    if |s| == 0 then "" else [Strings.Upper(s[0])] + seq(|s| - 1, i requires 0 <= i < |s| - 1 => Strings.Lower(s[i + 1]))
  }

  function TooLongMessage(fieldName: string, maxLength: int): string
  {
    Capitalize(fieldName) + " must be less than or equal to " + Strings.IntRepr(maxLength) + " characters in length"
  }

  function TooShortMessage(fieldName: string, minLength: int): string
  {
    Capitalize(fieldName) + " must be greater than or equal to " + Strings.IntRepr(minLength) + " characters in length"
  }

  /** `assert_length`: every value's length must lie in the bounds; an
    * over-long value is reported before an over-short one. */
  function AssertLength(field: Field, minLength: int, maxLength: int): (r: Result<Field>)
    ensures r.Success? <==> forall i :: 0 <= i < |field.Values()| ==> minLength <= |field.Values()[i]| <= maxLength
    ensures r.Success? ==> r.value == field
    ensures (exists i :: 0 <= i < |field.Values()| && |field.Values()[i]| > maxLength)
            ==> r == Failure(ValueError(TooLongMessage(field.fieldName, maxLength)))
    ensures (forall i :: 0 <= i < |field.Values()| ==> |field.Values()[i]| <= maxLength)
            && (exists i :: 0 <= i < |field.Values()| && |field.Values()[i]| < minLength)
            ==> r == Failure(ValueError(TooShortMessage(field.fieldName, minLength)))
  {
    var vs := field.Values();
    if MaxLength(vs) > maxLength then Failure(ValueError(TooLongMessage(field.fieldName, maxLength)))
    else if MinLength(vs) < minLength then Failure(ValueError(TooShortMessage(field.fieldName, minLength)))
    else Success(field)
  }

  /** Why a value is refused by `assert_matches`. */
  function MismatchMessage(fieldName: string, v: string, pattern: string, repr: string -> string): string
  {
    "Invalid " + fieldName + " provided, " + repr(v) + " doesn't match the required regex `" + pattern + "`"
  }

  function LowercaseMessage(fieldName: string, v: string, repr: string -> string): string
  {
    "Invalid " + fieldName + " provided, " + repr(v) + " must be lowercase"
  }

  /** A value passes when it matches and, under `lowerOnly`, is its own
    * lower case; `lower` stands for `str.lower`. */
  predicate Passes(v: string, matches: string -> bool, lowerOnly: bool, lower: string -> string)
  {
    matches(v) && (!lowerOnly || lower(v) == v)
  }

  /** `_MaybeLocalised.assert_matches`: the values are checked in order, and
    * the first one to fail is reported, as a mismatch when the predicate
    * refuses it and as not lower case otherwise. */
  function AssertMatches(field: Field, pattern: string, matches: string -> bool, lowerOnly: bool,
                         lower: string -> string, repr: string -> string): (r: Result<Field>)
    ensures r.Success? <==> forall i :: 0 <= i < |field.Values()| ==> Passes(field.Values()[i], matches, lowerOnly, lower)
    ensures r.Success? ==> r.value == field
    ensures r.Failure? ==>
      exists i :: (0 <= i < |field.Values()| && !Passes(field.Values()[i], matches, lowerOnly, lower)
                   && (forall j :: 0 <= j < i ==> Passes(field.Values()[j], matches, lowerOnly, lower))
                   && r.error == ValueError(
                        if !matches(field.Values()[i]) then MismatchMessage(field.fieldName, field.Values()[i], pattern, repr)
                        else LowercaseMessage(field.fieldName, field.Values()[i], repr)))
  {
    match Localise.FirstFailing(field.Values(), v => Passes(v, matches, lowerOnly, lower))
    case None => Success(field)
    case Some(i) =>
      var v := field.Values()[i];
      Failure(ValueError(if !matches(v) then MismatchMessage(field.fieldName, v, pattern, repr)
                         else LowercaseMessage(field.fieldName, v, repr)))
  }

  /** The largest snowflake: snowflakes are unsigned 63-bit integers. */
  const SNOWFLAKE_MAX: int := 0x7FFF_FFFF_FFFF_FFFF

  /** `_cast_snowflake`. */
  function CastSnowflake(value: int): (r: Result<nat>)
    ensures r.Success? <==> 0 <= value <= SNOWFLAKE_MAX
    ensures r.Success? ==> r.value as int == value
    ensures r.Failure? ==> r.error == ValueError(Strings.IntRepr(value) + " is not a valid snowflake")
  {
    if 0 <= value <= SNOWFLAKE_MAX then Success(value)
    else Failure(ValueError(Strings.IntRepr(value) + " is not a valid snowflake"))
  }

  /** The Unicode general categories a command name may use: letters and
    * numbers. */
  const NAME_CATEGORIES: set<string> := {"Lu", "Ll", "Lt", "Lm", "Lo", "Nd", "Nl", "No"}

  /** `_check_name_char` as written; `category` stands for
    * `unicodedata.category`. Each range test is a chained comparison
    * whose left link is reversed, so it is an upper bound only. */
  function CheckNameCharAsWritten(c: char, category: char -> string): (r: bool)
    ensures r <==> c == '-' || c == '_' || category(c) in NAME_CATEGORIES || c as int <= 0x0E00
  {
    var cp := c as int;
    c in {'-', '_'} || category(c) in NAME_CATEGORIES
    || (0x0900 >= cp && cp <= 0x097F) || (0x0E00 >= cp && cp <= 0x0E7F)
  }

  /** `_check_name_char` as its comment describes it: '-', '_', a letter or
    * number, or a character of the Devanagari (U+0900 to U+097F) or Thai
    * (U+0E00 to U+0E7F) blocks. */
  function CheckNameChar(c: char, category: char -> string): (r: bool)
    ensures 0x0900 <= c as int <= 0x097F || 0x0E00 <= c as int <= 0x0E7F ==> r
    ensures !(0x0900 <= c as int <= 0x097F || 0x0E00 <= c as int <= 0x0E7F) ==>
      (r <==> c == '-' || c == '_' || category(c) in NAME_CATEGORIES)
  {
    var cp := c as int;
    c in {'-', '_'} || category(c) in NAME_CATEGORIES
    || (0x0900 <= cp <= 0x097F) || (0x0E00 <= cp <= 0x0E7F)
  }

  /** A space (category "Zs") passes the as-written check, and the corrected
    * check refuses it. */
  lemma NameCharAcceptsSpace(category: char -> string)
    requires category(' ') == "Zs"
    ensures CheckNameCharAsWritten(' ', category)
    ensures !CheckNameChar(' ', category)
  {
    assert "Zs" != "Lu" && "Zs" != "Ll" && "Zs" != "Lt" && "Zs" != "Lm" && "Zs" != "Lo";
    assert "Zs" != "Nd" && "Zs" != "Nl" && "Zs" != "No";
  }

  /** `_validate_slash_name`: every character passes `check`. */
  function ValidateSlashName(name: string, check: char -> bool): (r: bool)
    ensures r <==> forall i :: 0 <= i < |name| ==> check(name[i])
  {
    if |name| == 0 then true
    else
      assert forall i :: 1 <= i < |name| ==> name[i] == name[1..][i - 1];
      check(name[0]) && ValidateSlashName(name[1..], check)
  }

  /** A name is valid exactly when both its halves are. */
  lemma {:induction false} ValidateConcat(a: string, b: string, check: char -> bool)
    ensures ValidateSlashName(a + b, check) == (ValidateSlashName(a, check) && ValidateSlashName(b, check))
  {
    if |a| != 0 {
      assert (a + b)[1..] == a[1..] + b;
      ValidateConcat(a[1..], b, check);
    } else {
      assert a + b == b;
    }
  }

  /** The regular expression the name check reports. */
  const SCOMMAND_NAME_REG: string := "^[-_\\p{L}\\p{N}\\p{sc=Deva}\\p{sc=Thai}]{1,32}$"

  /** `_check_name_char` as written, or as its comment describes it. */
  function NameCharCheck(c: char, category: char -> string, asWritten: bool): bool
  {
    if asWritten then CheckNameCharAsWritten(c, category) else CheckNameChar(c, category)
  }

  /** The slash command name chain of `to_builder`: parse, lengths 1 to 32,
    * then the character check; `asWritten` picks `parse` and
    * `_check_name_char` as written or corrected. */
  function SlashCommandName(raw: Localise.Raw<string>, category: char -> string, repr: string -> string,
                            asWritten: bool): (r: Result<Field>)
    ensures r.Success? ==>
      forall i :: 0 <= i < |r.value.Values()| ==>
        1 <= |r.value.Values()[i]| <= 32
        && forall k :: 0 <= k < |r.value.Values()[i]| ==> NameCharCheck(r.value.Values()[i][k], category, asWritten)
  {
    match (if asWritten then ParseAsWritten("name", raw) else Parse("name", raw))
    case Failure(e) => Failure(e)
    case Success(f) =>
      match AssertLength(f, 1, 32)
      case Failure(e) => Failure(e)
      case Success(g) =>
        AssertMatches(g, SCOMMAND_NAME_REG, s => ValidateSlashName(s, c => NameCharCheck(c, category, asWritten)),
                      false, s => s, repr)
  }

  /** Every name that parses, fits 1 to 32 characters and uses only allowed
    * characters gets through the chain. */
  lemma SlashCommandNameAccepts(name: string, category: char -> string, repr: string -> string, asWritten: bool)
    requires 1 <= |name| <= 32
    requires forall k :: 0 <= k < |name| ==> NameCharCheck(name[k], category, asWritten)
    ensures SlashCommandName(Localise.Plain(name), category, repr, asWritten)
      == Success(Localise.MaybeLocalised("name", name, []))
  {
    var f := Localise.MaybeLocalised("name", name, []);
    assert f.Values() == [name];
  }

  /** As written, "hello world" is a valid command name (every character up
    * to U+0E00 passes); corrected, its space is refused. */
  lemma SpacedNameAsWritten(category: char -> string, repr: string -> string)
    requires category(' ') == "Zs"
    ensures SlashCommandName(Localise.Plain("hello world"), category, repr, true).Success?
    ensures SlashCommandName(Localise.Plain("hello world"), category, repr, false).Failure?
  {
    var name := "hello world";
    assert forall k :: 0 <= k < |name| ==> name[k] as int <= 0x0E00;
    SlashCommandNameAccepts(name, category, repr, true);
    NameCharAcceptsSpace(category);
    var f := Localise.MaybeLocalised("name", name, []);
    assert f.Values() == [name];
    assert !ValidateSlashName(name, c => NameCharCheck(c, category, false)) by {
      assert name[5] == ' ';
    }
  }
}
