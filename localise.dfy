/** A field that is either one value or a table of per-locale values with
  * a "default" entry, as the component and modal builders accept for
  * labels, names and descriptions. */
module Localise {
  import opened Wrappers
  import Components

  /** The key of the default entry in a localised table. */
  const DEFAULT: string := "default"

  /** What a caller passes: a plain value, or a table of locale to value in
    * insertion order. */
  datatype Raw<T> = Plain(value: T) | Mapping(entries: seq<(string, T)>)

  /** `MaybeLocalised`: the field's name, its default value and the
    * per-locale values. */
  datatype MaybeLocalised<T> = MaybeLocalised(fieldName: string, value: T, localisations: seq<(string, T)>)
  {
    /** `_values`: the default value, then every localised value in order. */
    function Values(): (vs: seq<T>)
      ensures |vs| == 1 + |localisations| && vs[0] == value
      ensures forall i :: 0 <= i < |localisations| ==> vs[i + 1] == localisations[i].1
    {
      [value] + seq(|localisations|, i requires 0 <= i < |localisations| => localisations[i].1)
    }
  }

  /** Removing one key from a table leaves every other key's lookup as it
    * was. */
  lemma {:induction false} LookupRemoveKey<V(!new)>(table: seq<(string, V)>, key: string, other: string)
    requires other != key
    ensures Components.Lookup(Components.RemoveKey(table, key), other) == Components.Lookup(table, other)
  {
    if |table| != 0 {
      LookupRemoveKey(table[1..], key, other);
      if table[0].0 != key {
        assert ([table[0]] + Components.RemoveKey(table[1..], key))[1..] == Components.RemoveKey(table[1..], key);
      }
    }
  }

  /** `MaybeLocalised.parse`. A table's default value is its "default"
    * entry when that is truthy, else its first value (`StopIteration` when
    * the table is empty); its localisations are every other entry. */
  function Parse<T(!new)>(fieldName: string, raw: Raw<T>, truthy: T -> bool): (r: Result<MaybeLocalised<T>>)
    ensures r.Failure? <==> raw.Mapping? && |raw.entries| == 0
    ensures r.Failure? ==> r.error == StopIteration
    ensures r.Success? ==> r.value.fieldName == fieldName
    ensures raw.Plain? ==> r.Success? && r.value.value == raw.value && r.value.localisations == []
    ensures raw.Mapping? && r.Success? ==>
      var d := Components.Lookup(raw.entries, DEFAULT);
      r.value.value == (if d.Some? && truthy(d.value) then d.value else raw.entries[0].1)
    ensures raw.Mapping? && r.Success? ==>
      DEFAULT !in Components.Keys(r.value.localisations)
      && forall k :: k != DEFAULT ==> Components.Lookup(r.value.localisations, k) == Components.Lookup(raw.entries, k)
  {
    match raw
    case Plain(v) => Success(MaybeLocalised(fieldName, v, []))
    case Mapping(entries) =>
      var d := Components.Lookup(entries, DEFAULT);
      if (d.Some? && truthy(d.value)) || |entries| != 0 then
        var value := if d.Some? && truthy(d.value) then d.value else entries[0].1;
        var localisations := Components.RemoveKey(entries, DEFAULT);
        assert forall k :: k != DEFAULT ==> Components.Lookup(localisations, k) == Components.Lookup(entries, k) by {
          forall k | k != DEFAULT {
            LookupRemoveKey(entries, DEFAULT, k);
          }
        }
        Success(MaybeLocalised(fieldName, value, localisations))
      else
        Failure(StopIteration)
  }

  /** The position of the first value that fails the check. */
  function FirstFailing<T>(vs: seq<T>, ok: T -> bool): (r: Option<nat>)
    ensures r.Some? ==> r.value < |vs| && !ok(vs[r.value]) && forall j :: 0 <= j < r.value ==> ok(vs[j])
    ensures r.None? ==> forall j :: 0 <= j < |vs| ==> ok(vs[j])
  {
    if vs == [] then None
    else if !ok(vs[0]) then Some(0)
    else match FirstFailing(vs[1..], ok)
      case None => None
      case Some(i) => Some(i + 1)
  }

  /** The message `assert_matches` raises for a value; `repr` stands for
    * Python's `repr()` of the value. */
  function MismatchMessage<T>(fieldName: string, v: T, pattern: string, repr: T -> string): (r: string)
    ensures "Invalid " + fieldName + " provided, " + repr(v) <= r
    ensures |r| >= |pattern| + 2 && r[|r| - |pattern| - 2..] == "`" + pattern + "`"
  {
    "Invalid " + fieldName + " provided, " + repr(v) + " doesn't match the required pattern `" + pattern + "`"
  }

  /** `assert_matches`: every value, default first, must pass the check;
    * the first that does not is reported in a `ValueError`. */
  function AssertMatches<T>(field: MaybeLocalised<T>, pattern: string, matches: T -> bool, repr: T -> string)
    : (r: Result<MaybeLocalised<T>>)
    ensures r.Success? <==> forall i :: 0 <= i < |field.Values()| ==> matches(field.Values()[i])
    ensures r.Success? ==> r.value == field
    ensures r.Failure? ==>
      exists i :: (0 <= i < |field.Values()| && !matches(field.Values()[i])
                   && (forall j :: 0 <= j < i ==> matches(field.Values()[j]))
                   && r.error == ValueError(MismatchMessage(field.fieldName, field.Values()[i], pattern, repr)))
  {
    match FirstFailing(field.Values(), matches)
    case None => Success(field)
    case Some(i) => Failure(ValueError(MismatchMessage(field.fieldName, field.Values()[i], pattern, repr)))
  }

  /** `localise`: the value for the interaction's locale when there is a
    * truthy one, else the default value. */
  function Localise<T>(field: MaybeLocalised<T>, locale: string, truthy: T -> bool): (r: T)
    ensures exists i :: 0 <= i < |field.Values()| && field.Values()[i] == r
    ensures var e := Components.Lookup(field.localisations, locale);
            r == (if e.Some? && truthy(e.value) then e.value else field.value)
  {
    var e := Components.Lookup(field.localisations, locale);
    if e.Some? && truthy(e.value) then
      assert forall i :: (0 <= i < |field.localisations| && field.localisations[i] == (locale, e.value)
                          ==> field.Values()[i + 1] == e.value);
      e.value
    else
      assert field.Values()[0] == field.value;
      field.value
  }

  /** A parsed table answers each locale with that locale's own entry when
    * it is truthy, and with the default value otherwise. */
  lemma LocaliseParsed<T(!new)>(fieldName: string, entries: seq<(string, T)>, locale: string, truthy: T -> bool)
    requires |entries| != 0 && locale != DEFAULT
    ensures Parse(fieldName, Mapping(entries), truthy).Success?
    ensures var field := Parse(fieldName, Mapping(entries), truthy).value;
            var e := Components.Lookup(entries, locale);
            Localise(field, locale, truthy) == (if e.Some? && truthy(e.value) then e.value else field.value)
  {
  }
}
