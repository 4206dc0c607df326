/** Luggage tags and their storage codec (models/enums/luggage.go).

    A booking row keeps its luggage as one text column holding a JSON array
    of tag strings. The model fixes the grammar the encoder produces:
    `[`, then zero or more double-quoted tags separated by `,`, then `]`,
    with no whitespace and no escape sequences. */
module LuggageEnum {
  import opened Wrappers

  /** Go declares `type Luggage string`: a request may carry any string. */
  type Luggage = string

  const SmallBag: Luggage := "SmallBag"
  const CabinBag: Luggage := "CabinBag"
  const Cargo20kg: Luggage := "Cargo20kg"
  const Cargo30kg: Luggage := "Cargo30kg"
  const SportsEquipment: Luggage := "SportsEquipment"
  const BabyCarrier: Luggage := "BabyCarrier"

  /** One of the six tags the decoder accepts. */
  predicate IsKnown(t: string) {
    t == SmallBag || t == CabinBag || t == Cargo20kg || t == Cargo30kg
    || t == SportsEquipment || t == BabyCarrier
  }

  predicate AllKnown(ts: seq<string>) {
    forall i :: 0 <= i < |ts| ==> IsKnown(ts[i])
  }

  // ---------------------------------------------------------------------------
  // The JSON grammar

  /** A character that JSON lets stand for itself inside a string. */
  predicate IsPlainChar(c: char) {
    c != '"' && c != '\\' && c >= ' '
  }

  predicate IsPlain(t: string) {
    forall i :: 0 <= i < |t| ==> IsPlainChar(t[i])
  }

  predicate AllPlain(ts: seq<string>) {
    forall i :: 0 <= i < |ts| ==> IsPlain(ts[i])
  }

  /** Length of the longest prefix of s made of plain characters. */
  function PlainPrefixLength(s: string): (n: nat)
    ensures n <= |s|
    ensures forall i :: 0 <= i < n ==> IsPlainChar(s[i])
    ensures n < |s| ==> !IsPlainChar(s[n])
  {
    if s == [] || !IsPlainChar(s[0]) then 0 else 1 + PlainPrefixLength(s[1..])
  }

  function Quote(t: string): string {
    "\"" + t + "\""
  }

  /** The quoted tags, separated by commas. */
  function JoinQuoted(ts: seq<string>): string {
    if ts == [] then ""
    else if |ts| == 1 then Quote(ts[0])
    else Quote(ts[0]) + "," + JoinQuoted(ts[1..])
  }

  /** Parses a non-empty comma-separated list of quoted plain strings. */
  function ParseItems(s: string): Option<seq<string>>
    decreases |s|
  {
    if s == [] || s[0] != '"' then None
    else
      var n := PlainPrefixLength(s[1..]);
      if 1 + n == |s| || s[1 + n] != '"' then None
      else
        var item := s[1..1 + n];
        var rest := s[2 + n..];
        if rest == [] then Some([item])
        else if rest[0] != ',' then None
        else
          match ParseItems(rest[1..])
          case None => None
          case Some(items) => Some([item] + items)
  }

  /** Unmarshals a JSON array of strings; None when the input is anything else. */
  function ParseStringArray(s: string): Option<seq<string>> {
    if |s| < 2 || s[0] != '[' || s[|s| - 1] != ']' then None
    else if |s| == 2 then Some([])
    else ParseItems(s[1..|s| - 1])
  }

  // ---------------------------------------------------------------------------
  // Decoding

  /** The known tags among items, in their order, duplicates kept. */
  function KnownOnly(items: seq<string>): (r: seq<Luggage>)
    ensures AllKnown(r)
    ensures |r| <= |items|
  {
    if items == [] then []
    else (if IsKnown(items[0]) then [items[0]] else []) + KnownOnly(items[1..])
  }

  /** What LuggageClassesFromJSONString returns: the known tags of a JSON
      string array, and the empty list for any input that is not one. */
  function DecodeLuggage(jsonInput: string): seq<Luggage> {
    match ParseStringArray(jsonInput)
    case None => []
    case Some(items) => KnownOnly(items)
  }

  /** Filtering distributes over concatenation: the decoder keeps the tags
      of each part in place, so it keeps input order. */
  lemma {:induction false} KnownOnlyAppend(a: seq<string>, b: seq<string>)
    ensures KnownOnly(a + b) == KnownOnly(a) + KnownOnly(b)
  {
    if a == [] {
      assert a + b == b;
    } else {
      assert (a + b)[1..] == a[1..] + b;
      KnownOnlyAppend(a[1..], b);
    }
  }

  /** A tag is kept exactly when it occurs in the input and is known. */
  lemma {:induction false} KnownOnlyMembership(items: seq<string>, t: string)
    ensures t in KnownOnly(items) <==> t in items && IsKnown(t)
  {
    if items != [] {
      KnownOnlyMembership(items[1..], t);
      assert items == [items[0]] + items[1..];
    }
  }

  /** A list made only of known tags passes through the filter unchanged. */
  lemma {:induction false} KnownOnlyKeepsKnown(items: seq<string>)
    requires AllKnown(items)
    ensures KnownOnly(items) == items
  {
    if items != [] {
      KnownOnlyKeepsKnown(items[1..]);
    }
  }

  /** The imperative decoder: unmarshal, then append each accepted tag. */
  method LuggageClassesFromJSONString(jsonInput: string) returns (result: seq<Luggage>)
    ensures result == DecodeLuggage(jsonInput)
    ensures AllKnown(result)
  {
    var parsed := ParseStringArray(jsonInput);
    if parsed.None? {
      return [];
    }
    var items := parsed.value;
    result := [];
    for i := 0 to |items|
      invariant result == KnownOnly(items[..i])
    {
      KnownOnlyAppend(items[..i], [items[i]]);
      assert items[..i + 1] == items[..i] + [items[i]];
      if IsKnown(items[i]) {
        result := result + [items[i]];
      }
    }
    assert items[..|items|] == items;
  }

  // ---------------------------------------------------------------------------
  // Encoding

  /** Marshals the tags as a JSON array of strings. Marshalling a list of
      strings cannot fail, so the `[]` fallback of the source never applies. */
  function JSONStringToLuggageClasses(luggage: seq<Luggage>): (r: string)
    ensures |r| >= 2 && r[0] == '[' && r[|r| - 1] == ']'
  {
    "[" + JoinQuoted(luggage) + "]"
  }

  lemma {:induction false} PlainPrefixOfTagThenQuote(t: string, tail: string)
    requires IsPlain(t)
    ensures PlainPrefixLength(t + "\"" + tail) == |t|
  {
    if t != [] {
      assert (t + "\"" + tail)[1..] == t[1..] + "\"" + tail;
      PlainPrefixOfTagThenQuote(t[1..], tail);
    }
  }

  /** One step of the item parser: a quoted plain string, then either the
      end of the list or a comma and the remaining items. */
  lemma ParseItemsStep(t: string, tail: string)
    requires IsPlain(t)
    ensures tail == [] ==> ParseItems(Quote(t) + tail) == Some([t])
    ensures tail != [] && tail[0] == ',' && ParseItems(tail[1..]).Some? ==>
              ParseItems(Quote(t) + tail) == Some([t] + ParseItems(tail[1..]).value)
  {
    var s := Quote(t) + tail;
    var n := |t|;
    assert s[1..] == t + "\"" + tail;
    PlainPrefixOfTagThenQuote(t, tail);
    assert PlainPrefixLength(s[1..]) == n;
    assert s[1 + n] == '"';
    assert s[1..1 + n] == t;
    assert s[2 + n..] == tail;
  }

  /** The parser reads back a list of quoted plain strings that it already
      reads back without its first item. */
  lemma ParseJoinQuotedCons(t: string, rest: seq<string>)
    requires IsPlain(t) && rest != []
    requires ParseItems(JoinQuoted(rest)) == Some(rest)
    ensures ParseItems(JoinQuoted([t] + rest)) == Some([t] + rest)
  {
    var tail := "," + JoinQuoted(rest);
    assert JoinQuoted([t] + rest) == Quote(t) + tail by {
      assert ([t] + rest)[1..] == rest;
    }
    assert tail[1..] == JoinQuoted(rest);
    ParseItemsStep(t, tail);
  }

  lemma {:induction false} ParseJoinQuoted(ts: seq<string>)
    requires ts != [] && AllPlain(ts)
    ensures ParseItems(JoinQuoted(ts)) == Some(ts)
  {
    if |ts| == 1 {
      assert JoinQuoted(ts) == Quote(ts[0]) + [];
      ParseItemsStep(ts[0], []);
      assert ts == [ts[0]];
    } else {
      ParseJoinQuoted(ts[1..]);
      ParseJoinQuotedCons(ts[0], ts[1..]);
      assert [ts[0]] + ts[1..] == ts;
    }
  }

  /** Every list of plain strings survives the array codec. */
  lemma ParseEncoded(ts: seq<string>)
    requires AllPlain(ts)
    ensures ParseStringArray(JSONStringToLuggageClasses(ts)) == Some(ts)
  {
    var s := JSONStringToLuggageClasses(ts);
    if ts == [] {
      assert s == "[]";
    } else {
      assert s[1..|s| - 1] == JoinQuoted(ts);
      ParseJoinQuoted(ts);
      assert JoinQuoted(ts) != [];
    }
  }

  lemma KnownIsPlain(t: string)
    requires IsKnown(t)
    ensures IsPlain(t)
  {
  }

  /** Decoding an encoding keeps exactly the known tags, in order. */
  lemma DecodeEncodeFilters(luggage: seq<Luggage>)
    requires AllPlain(luggage)
    ensures DecodeLuggage(JSONStringToLuggageClasses(luggage)) == KnownOnly(luggage)
  {
    ParseEncoded(luggage);
  }

  /** Round trip: a list of known tags is decoded back from its encoding. */
  lemma DecodeEncode(luggage: seq<Luggage>)
    requires AllKnown(luggage)
    ensures DecodeLuggage(JSONStringToLuggageClasses(luggage)) == luggage
  {
    forall i | 0 <= i < |luggage| ensures IsPlain(luggage[i]) {
      KnownIsPlain(luggage[i]);
    }
    DecodeEncodeFilters(luggage);
    KnownOnlyKeepsKnown(luggage);
  }

  /** Re-encoding a decoded list and decoding again gives the same list. */
  lemma DecodeIdempotent(jsonInput: string)
    ensures DecodeLuggage(JSONStringToLuggageClasses(DecodeLuggage(jsonInput)))
            == DecodeLuggage(jsonInput)
  {
    DecodeEncode(DecodeLuggage(jsonInput));
  }

  /** The stored form of the converter tests' fixture. */
  lemma EncodeFixture()
    ensures JSONStringToLuggageClasses([SmallBag, Cargo20kg]) == "[\"SmallBag\",\"Cargo20kg\"]"
  {
    var ts := [SmallBag, Cargo20kg];
    assert ts[1..] == [Cargo20kg];
    var first, second := Quote(SmallBag), Quote(Cargo20kg);
    assert first == "\"SmallBag\"";
    assert second == "\"Cargo20kg\"";
    assert JoinQuoted(ts) == first + "," + second;
    assert "[" + first + "," + second + "]" == "[\"SmallBag\",\"Cargo20kg\"]";
  }

  /** The fixture's stored form decodes back to the fixture. */
  lemma DecodeFixture()
    ensures DecodeLuggage("[\"SmallBag\",\"Cargo20kg\"]") == [SmallBag, Cargo20kg]
  {
    EncodeFixture();
    DecodeEncode([SmallBag, Cargo20kg]);
  }

  /** Inputs that are not a JSON array of strings decode to the empty list. */
  lemma NonArraysDecodeEmpty()
    ensures DecodeLuggage("") == []
    ensures DecodeLuggage("null") == []
    ensures DecodeLuggage("[1,2]") == []
  {
    var s := "[1,2]";
    assert s[1..|s| - 1] == "1,2";
  }
}
