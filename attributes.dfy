/** The attribute mapping of `Scraper.update_attributes`: the attributes a
    resource defines are resolved against the cached attribute-definition
    table into display name / value pairs, with names taken in the "en-CA"
    culture by `get_localized_display_name`. */
module Attributes {
  import opened Common

  /** The culture whose display names are used. */
  const Culture: string := "en-CA"

  /** One entry of a `localizedValues` list. */
  datatype Localized = Localized(cultureName: string, displayName: string)

  /** One enumerated value of a definition. */
  datatype EnumValue = EnumValue(enumValue: int, localizedValues: seq<Localized>)

  /** An attribute definition. `values` is empty both when the key is missing
      and when the list is empty (both are falsy); `minValue` and `maxValue`
      are the texts the f-string renders for them. */
  datatype Definition = Definition(
    localizedValues: seq<Localized>,
    values: seq<EnumValue>,
    minValue: string,
    maxValue: string)

  /** One entry of a resource's `definedAttributes`; `values` is empty when
      the key is missing. */
  datatype DefinedAttribute = DefinedAttribute(attributeDefinitionId: int, values: seq<int>)

  /** `', '.join(values)` raises a TypeError when an enumerated value has no
      name in the culture (the list then holds None); the exception ends
      `update_attributes`. */
  datatype MappingError = UnnamedEnumValue(attributeDefinitionId: int)

  /** The display name of the first entry for `culture`. */
  function DisplayName(values: seq<Localized>, culture: string): Option<string>
  {
    match FirstMatch(values, (v: Localized) => v.cultureName == culture)
    case None => None
    case Some(v) => Some(v.displayName)
  }

  /** `get_localized_display_name(localized_values, culture_name)`. */
  method GetLocalizedDisplayName(values: seq<Localized>, culture: string) returns (r: Option<string>)
    ensures r == DisplayName(values, culture)
    ensures r.None? <==> forall i :: 0 <= i < |values| ==> values[i].cultureName != culture
    ensures r.Some? ==> exists i :: (0 <= i < |values| && values[i].cultureName == culture
              && values[i].displayName == r.value
              && forall j :: 0 <= j < i ==> values[j].cultureName != culture)
  {
    for i := 0 to |values|
      invariant forall j :: 0 <= j < i ==> values[j].cultureName != culture
    {
      if values[i].cultureName == culture {
        return Some(values[i].displayName);
      }
    }
    return None;
  }

  /** The first enumerated value of a definition equal to `v`. */
  function EnumFor(enumValues: seq<EnumValue>, v: int): Option<EnumValue>
  {
    FirstMatch(enumValues, (t: EnumValue) => t.enumValue == v)
  }

  /** The search of lines 300-304 for the enumerated value equal to `v`. */
  method FindEnumValue(enumValues: seq<EnumValue>, v: int) returns (r: Option<EnumValue>)
    ensures r == EnumFor(enumValues, v)
    ensures r.None? <==> forall i :: 0 <= i < |enumValues| ==> enumValues[i].enumValue != v
    ensures r.Some? ==> exists i :: (0 <= i < |enumValues| && enumValues[i] == r.value
              && r.value.enumValue == v
              && forall j :: 0 <= j < i ==> enumValues[j].enumValue != v)
  {
    for t := 0 to |enumValues|
      invariant forall j :: 0 <= j < t ==> enumValues[j].enumValue != v
    {
      if enumValues[t].enumValue == v {
        return Some(enumValues[t]);
      }
    }
    return None;
  }

  /** The `values` list of lines 297-309: for each chosen enumerated value in
      order, the name of the first matching value of the definition; chosen
      values that match nothing are skipped. */
  function EnumNames(enumValues: seq<EnumValue>, chosen: seq<int>): seq<Option<string>>
    decreases |chosen|
  {
    if chosen == [] then []
    else
      var prior := EnumNames(enumValues, chosen[..|chosen| - 1]);
      match EnumFor(enumValues, chosen[|chosen| - 1])
      case None => prior
      case Some(t) => prior + [DisplayName(t.localizedValues, Culture)]
  }

  predicate AllNamed(names: seq<Option<string>>)
  {
    forall k :: 0 <= k < |names| ==> names[k].Some?
  }

  function Unwrap(names: seq<Option<string>>): (r: seq<string>)
    requires AllNamed(names)
    ensures |r| == |names| && forall k :: 0 <= k < |names| ==> names[k] == Some(r[k])
  {
    if names == [] then [] else [names[0].value] + Unwrap(names[1..])
  }

  /** The text of a range definition's value. */
  function RangeText(d: Definition): string
  {
    "[Min : " + d.minValue + " - Max : " + d.maxValue + "]"
  }

  /** The value text of one defined attribute, or None when the join raises. */
  function AttributeValue(d: Definition, a: DefinedAttribute): Option<string>
  {
    if |d.values| > 0 then
      var names := EnumNames(d.values, a.values);
      if AllNamed(names) then Some(Join(Unwrap(names), ", ")) else None
    else
      Some(RangeText(d))
  }

  /** `attributes_list` after the loop of lines 282-320 over `attrs`, or the
      error that ends it. */
  function AttributeList(defs: map<int, Definition>, attrs: seq<DefinedAttribute>): Result<seq<AttributePair>, MappingError>
    decreases |attrs|
  {
    if attrs == [] then Ok([])
    else
      match AttributeList(defs, attrs[..|attrs| - 1])
      case Err(e) => Err(e)
      case Ok(prior) =>
        var a := attrs[|attrs| - 1];
        if a.attributeDefinitionId !in defs then Ok(prior)
        else
          var d := defs[a.attributeDefinitionId];
          match AttributeValue(d, a)
          case None => Err(UnnamedEnumValue(a.attributeDefinitionId))
          case Some(v) => Ok(prior + [AttributePair(DisplayName(d.localizedValues, Culture), v)])
  }

  /** The inner loop of lines 297-309: the names of the chosen values. */
  method ValueNames(enumValues: seq<EnumValue>, chosen: seq<int>) returns (values: seq<Option<string>>)
    ensures values == EnumNames(enumValues, chosen)
  {
    values := [];
    assert chosen[..|chosen|] == chosen;
    for j := 0 to |chosen|
      invariant values == EnumNames(enumValues, chosen[..j])
    {
      assert chosen[..j + 1][..j] == chosen[..j];
      var value := FindEnumValue(enumValues, chosen[j]);
      if value.None? {
        continue;
      }
      var valueName := GetLocalizedDisplayName(value.value.localizedValues, Culture);
      values := values + [valueName];
    }
  }

  /** The mapping loop of lines 276-320 for one resource. */
  method MapAttributes(defs: map<int, Definition>, attrs: seq<DefinedAttribute>) returns (r: Result<seq<AttributePair>, MappingError>)
    ensures r == AttributeList(defs, attrs)
  {
    var attributesList: seq<AttributePair> := [];
    assert attrs[..|attrs|] == attrs;
    for k := 0 to |attrs|
      invariant AttributeList(defs, attrs[..k]) == Ok(attributesList)
    {
      assert attrs[..k + 1][..k] == attrs[..k];
      var attr := attrs[k];
      var definitionId := attr.attributeDefinitionId;
      if definitionId !in defs {
        continue;
      }
      var details := defs[definitionId];
      var attributeName := GetLocalizedDisplayName(details.localizedValues, Culture);
      if |details.values| > 0 {
        var values := ValueNames(details.values, attr.values);
        if !AllNamed(values) {
          ErrorPersists(defs, attrs, k + 1);
          return Err(UnnamedEnumValue(definitionId));
        }
        attributesList := attributesList + [AttributePair(attributeName, Join(Unwrap(values), ", "))];
      } else {
        attributesList := attributesList + [AttributePair(attributeName, RangeText(details))];
      }
    }
    r := Ok(attributesList);
  }

  /** Once a prefix fails, the whole list fails with the same error. */
  lemma {:induction false} ErrorPersists(defs: map<int, Definition>, attrs: seq<DefinedAttribute>, k: nat)
    requires k <= |attrs|
    requires AttributeList(defs, attrs[..k]).Err?
    ensures AttributeList(defs, attrs) == AttributeList(defs, attrs[..k])
    decreases |attrs| - k
  {
    if k == |attrs| {
      assert attrs[..k] == attrs;
    } else {
      assert attrs[..k + 1][..k] == attrs[..k];
      ErrorPersists(defs, attrs, k + 1);
    }
  }

  /** The defined attributes whose definition id is in the table, in order. */
  function Known(defs: map<int, Definition>, attrs: seq<DefinedAttribute>): (r: seq<DefinedAttribute>)
    ensures forall k :: 0 <= k < |r| ==> r[k] in attrs && r[k].attributeDefinitionId in defs
    ensures forall a :: a in attrs && a.attributeDefinitionId in defs ==> a in r
    decreases |attrs|
  {
    if attrs == [] then []
    else
      var a := attrs[|attrs| - 1];
      assert attrs == attrs[..|attrs| - 1] + [a];
      Known(defs, attrs[..|attrs| - 1]) + (if a.attributeDefinitionId in defs then [a] else [])
  }

  /** The kept attributes keep their input order: filtering distributes over
      concatenation. */
  lemma {:induction false} KnownConcat(defs: map<int, Definition>, a: seq<DefinedAttribute>, b: seq<DefinedAttribute>)
    ensures Known(defs, a + b) == Known(defs, a) + Known(defs, b)
    decreases |b|
  {
    if b == [] {
      assert a + b == a;
    } else {
      assert (a + b)[..|a + b| - 1] == a + b[..|b| - 1];
      KnownConcat(defs, a, b[..|b| - 1]);
    }
  }

  /** The pair a known defined attribute yields when its value resolves. */
  function PairFor(defs: map<int, Definition>, a: DefinedAttribute): AttributePair
    requires a.attributeDefinitionId in defs
    requires AttributeValue(defs[a.attributeDefinitionId], a).Some?
  {
    var d := defs[a.attributeDefinitionId];
    AttributePair(DisplayName(d.localizedValues, Culture), AttributeValue(d, a).value)
  }

  /** Every known defined attribute resolves to a value. */
  predicate AllResolve(defs: map<int, Definition>, known: seq<DefinedAttribute>)
  {
    forall k :: 0 <= k < |known| ==>
      known[k].attributeDefinitionId in defs
      && AttributeValue(defs[known[k].attributeDefinitionId], known[k]).Some?
  }

  /** The mapping succeeds exactly when every known attribute resolves, and
      then yields one pair per known attribute, in input order: its localized
      name and its value. Unknown definition ids contribute nothing. */
  lemma {:induction false} AttributeListShape(defs: map<int, Definition>, attrs: seq<DefinedAttribute>)
    ensures var known := Known(defs, attrs);
      && (AttributeList(defs, attrs).Ok? <==> AllResolve(defs, known))
      && (AttributeList(defs, attrs).Ok? ==>
            var l := AttributeList(defs, attrs).value;
            |l| == |known| && forall k :: 0 <= k < |l| ==> l[k] == PairFor(defs, known[k]))
    decreases |attrs|
  {
    if attrs != [] {
      var prefix := attrs[..|attrs| - 1];
      AttributeListShape(defs, prefix);
      var a := attrs[|attrs| - 1];
      var known := Known(defs, attrs);
      var knownPrefix := Known(defs, prefix);
      if a.attributeDefinitionId in defs {
        assert known == knownPrefix + [a];
        if AllResolve(defs, known) {
          assert AllResolve(defs, knownPrefix) by {
            forall k | 0 <= k < |knownPrefix| ensures
              knownPrefix[k].attributeDefinitionId in defs
              && AttributeValue(defs[knownPrefix[k].attributeDefinitionId], knownPrefix[k]).Some?
            {
              assert knownPrefix[k] == known[k];
            }
          }
          assert known[|known| - 1] == a;
        }
      } else {
        assert known == knownPrefix;
      }
    }
  }

  /** The enumerated names of a concatenation of chosen values are the names
      of each part, in order. */
  lemma {:induction false} EnumNamesConcat(enumValues: seq<EnumValue>, a: seq<int>, b: seq<int>)
    ensures EnumNames(enumValues, a + b) == EnumNames(enumValues, a) + EnumNames(enumValues, b)
    decreases |b|
  {
    if b == [] {
      assert a + b == a;
    } else {
      var b' := b[..|b| - 1];
      assert (a + b)[..|a + b| - 1] == a + b';
      assert (a + b)[|a + b| - 1] == b[|b| - 1];
      EnumNamesConcat(enumValues, a, b');
    }
  }

  /** One chosen value contributes nothing when it matches no enumerated
      value, and otherwise the culture's name of the first value it matches. */
  lemma EnumNamesSingle(enumValues: seq<EnumValue>, v: int)
    ensures EnumFor(enumValues, v).None? ==> EnumNames(enumValues, [v]) == []
    ensures EnumFor(enumValues, v).Some? ==>
              EnumNames(enumValues, [v]) == [DisplayName(EnumFor(enumValues, v).value.localizedValues, Culture)]
  {
    assert [v][..0] == [];
  }
}
