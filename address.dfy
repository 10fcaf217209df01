/** Address shaping: `formatShortAddress` for the search provider's display
    string and `getOverpassAddress` for spatial-query address tags. */
module Address {
  import opened Text
  import opened Places

  /** The leading comma-separated segments of a display string: the whole
      string when it has at most two, otherwise the first three, never the
      last one, joined with ", ". */
  function FormatShortAddress(displayName: string): string
  {
    var parts := Split(displayName, ',');
    if |parts| <= 2 then displayName
    else Join(parts[..Min(3, |parts| - 1)], ", ")
  }

  /** A display string with at most two segments is returned as it is. One
      with n > 2 segments becomes min(3, n - 1) segments: the first segment
      unchanged, the following ones each the input's segment at the same
      position behind the space of ", ". So the result has at most three
      segments and never includes the last one. */
  lemma {:induction false} ShortAddressSegments(displayName: string)
    ensures |Split(displayName, ',')| <= 2 ==> FormatShortAddress(displayName) == displayName
    ensures |Split(FormatShortAddress(displayName), ',')| <= 3
    ensures |Split(displayName, ',')| > 2 ==>
      && |Split(FormatShortAddress(displayName), ',')| == Min(3, |Split(displayName, ',')| - 1)
      && Split(FormatShortAddress(displayName), ',')[0] == Split(displayName, ',')[0]
      && forall i :: 1 <= i < |Split(FormatShortAddress(displayName), ',')| ==>
           Split(FormatShortAddress(displayName), ',')[i] == " " + Split(displayName, ',')[i]
  {
    var parts := Split(displayName, ',');
    if |parts| > 2 {
      var kept := parts[..Min(3, |parts| - 1)];
      SplitPiecesAreSeparatorFree(displayName, ',');
      assert ", " == [','] + " ";
      SplitJoin(kept, ',', " ");
    }
  }

  /** The placeholder used when an element carries neither street nor city. */
  const NoAddress: string := "Адрес не указан"

  /** The pieces of an Overpass address, in order: street, house number (only
      together with a street), city. */
  function AddressPieces(street: string, houseNumber: string, city: string): seq<string>
  {
    (if street != "" then [street] + (if houseNumber != "" then [houseNumber] else []) else [])
    + (if city != "" then [city] else [])
  }

  /** The street followed by the house number, when there is one. */
  function StreetLine(street: string, houseNumber: string): string
  {
    if houseNumber != "" then street + ", " + houseNumber else street
  }

  /** The joined pieces, case by case. */
  lemma JoinAddressPieces(street: string, houseNumber: string, city: string)
    ensures var pieces := AddressPieces(street, houseNumber, city);
      && (|pieces| == 0 <==> street == "" && city == "")
      && (street != "" && city != "" ==> Join(pieces, ", ") == StreetLine(street, houseNumber) + ", " + city)
      && (street != "" && city == "" ==> Join(pieces, ", ") == StreetLine(street, houseNumber))
      && (street == "" && city != "" ==> Join(pieces, ", ") == city)
  {
    JoinSmall(street, houseNumber, city, ", ");
    JoinSmall(street, city, "", ", ");
    JoinSmall(street, houseNumber, "", ", ");
  }

  /** The address of a spatial-query element, from its `addr:street`,
      `addr:housenumber` and `addr:city` tags. */
  function OverpassAddress(tags: Tags): string
  {
    var pieces := AddressPieces(Tag(tags, "addr:street"), Tag(tags, "addr:housenumber"), Tag(tags, "addr:city"));
    if |pieces| > 0 then Join(pieces, ", ") else NoAddress
  }

  /** `getOverpassAddress`: push the street, append the house number to it,
      push the city, join with ", ", or give the placeholder. */
  method BuildOverpassAddress(tags: Tags) returns (address: string)
    ensures address == OverpassAddress(tags)
  {
    var addressParts: seq<string> := [];
    var street := Tag(tags, "addr:street");
    var houseNumber := Tag(tags, "addr:housenumber");
    var city := Tag(tags, "addr:city");
    if street != "" {
      addressParts := addressParts + [street];
      if houseNumber != "" {
        addressParts := addressParts[|addressParts| - 1 := addressParts[|addressParts| - 1] + ", " + houseNumber];
      }
    }
    if city != "" {
      addressParts := addressParts + [city];
    }
    address := if |addressParts| > 0 then Join(addressParts, ", ") else NoAddress;
    JoinAddressPieces(street, houseNumber, city);
    JoinSmall(StreetLine(street, houseNumber), city, "", ", ");
  }

  /** When neither street nor city is present, the address is the
      placeholder; a house number without a street is ignored; a present
      street leads the address and is directly followed by the house number;
      a present city ends it. */
  lemma OverpassAddressShape(tags: Tags)
    ensures var street, city := Tag(tags, "addr:street"), Tag(tags, "addr:city");
      street == "" && city == "" ==> OverpassAddress(tags) == NoAddress
    ensures Tag(tags, "addr:street") == "" ==>
      OverpassAddress(tags) == OverpassAddress(tags - {"addr:housenumber"})
    ensures var street, number := Tag(tags, "addr:street"), Tag(tags, "addr:housenumber");
      street != "" ==> street + (if number != "" then ", " + number else "") <= OverpassAddress(tags)
    ensures var city, r := Tag(tags, "addr:city"), OverpassAddress(tags);
      city != "" ==> |city| <= |r| && r[|r| - |city|..] == city
  {
    var street, number, city := Tag(tags, "addr:street"), Tag(tags, "addr:housenumber"), Tag(tags, "addr:city");
    JoinAddressPieces(street, number, city);
    JoinAddressPieces(street, "", city);
  }

  /** With comma-free tag values, splitting the address at commas gives the
      pieces back: the street first, the house number as the very next
      segment, the city last. */
  lemma OverpassAddressSegments(tags: Tags)
    requires var street, number, city := Tag(tags, "addr:street"), Tag(tags, "addr:housenumber"), Tag(tags, "addr:city");
      ',' !in street && ',' !in number && ',' !in city && (street != "" || city != "")
    ensures var pieces := AddressPieces(Tag(tags, "addr:street"), Tag(tags, "addr:housenumber"), Tag(tags, "addr:city"));
      var segments := Split(OverpassAddress(tags), ',');
      && |segments| == |pieces|
      && segments[0] == pieces[0]
      && forall i :: 1 <= i < |pieces| ==> segments[i] == " " + pieces[i]
  {
    var pieces := AddressPieces(Tag(tags, "addr:street"), Tag(tags, "addr:housenumber"), Tag(tags, "addr:city"));
    assert ", " == [','] + " ";
    SplitJoin(pieces, ',', " ");
  }
}
