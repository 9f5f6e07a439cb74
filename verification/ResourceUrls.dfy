/**
  Reading a parameter out of a resource URL whose path alternates keys and values, and the
  region out of a zone name. The URL parser of the host library is the parameter `pathOf`.
 */
module ResourceUrls {
  import opened Basics
  import opened Text

  /** The key was the last segment of the path. */
  datatype UrlError = IndexError

  function FirstIndex(parts: seq<string>, key: string): (i: nat)
    requires key in parts
    ensures i < |parts| && parts[i] == key && key !in parts[..i]
  {
    if parts[0] == key then 0
    else
      var i := FirstIndex(parts[1..], key);
      assert parts[..i + 1] == [parts[0]] + parts[1..][..i];
      i + 1
  }

  function GetParamInUrl(pathOf: string -> string, url: string, key: string): Result<string, UrlError>
  {
    var listPath := Split(pathOf(url), '/');
    if key !in listPath then Success("")
    else
      var indexValue := FirstIndex(listPath, key) + 1;
      if indexValue < |listPath| then Success(listPath[indexValue]) else Failure(IndexError)
  }

  function ParseRegionFromZone(zone: string): string
  {
    var parsedZone := Split(zone, '-');
    if |parsedZone| >= 2 then parsedZone[0] + "-" + parsedZone[1] else ""
  }

  /** `_get_zone_and_region` of a VM. */
  function GetZoneAndRegion(pathOf: string -> string, zoneUrl: string): Result<(string, string), UrlError>
  {
    match GetParamInUrl(pathOf, zoneUrl, "zones")
    case Success(zone) => Success((zone, ParseRegionFromZone(zone)))
    case Failure(e) => Failure(e)
  }

  ghost predicate IsPath(segments: seq<string>)
  {
    segments != [] && forall s :: s in segments ==> '/' !in s
  }

  lemma FirstIndexIsUnique(parts: seq<string>, key: string, i: nat)
    requires i < |parts| && parts[i] == key && key !in parts[..i]
    ensures FirstIndex(parts, key) == i
  {
    var j := FirstIndex(parts, key);
    assert forall k :: 0 <= k < i ==> parts[k] in parts[..i];
    assert forall k :: 0 <= k < j ==> parts[k] in parts[..j];
  }

  /**
    On a path of segments the parameter is the segment after the key's first occurrence;
    without the key it is empty, and the lookup fails only when that occurrence comes last.
   */
  lemma ParamFollowsTheFirstKey(pathOf: string -> string, url: string, segments: seq<string>, key: string)
    requires IsPath(segments) && pathOf(url) == Join(segments, '/')
    ensures GetParamInUrl(pathOf, url, key).Failure? <==>
              key in segments && FirstIndex(segments, key) == |segments| - 1
    ensures key !in segments ==> GetParamInUrl(pathOf, url, key) == Success("")
    ensures forall i :: 0 <= i < |segments| - 1 && segments[i] == key && key !in segments[..i] ==>
              GetParamInUrl(pathOf, url, key) == Success(segments[i + 1])
  {
    SplitJoin(segments, '/');
    forall i | 0 <= i < |segments| - 1 && segments[i] == key && key !in segments[..i]
      ensures GetParamInUrl(pathOf, url, key) == Success(segments[i + 1])
    {
      FirstIndexIsUnique(segments, key, i);
    }
  }

  /** A text without a dash has no region. */
  lemma NoRegionWithoutDash(zone: string)
    requires '-' !in zone
    ensures ParseRegionFromZone(zone) == ""
  {
    SplitWithout(zone, '-');
  }

  /** The region of `area-location` is itself, of `area-location-letter` the same, whatever follows. */
  lemma RegionOfZone(area: string, location: string, rest: seq<string>)
    requires '-' !in area && '-' !in location && forall r :: r in rest ==> '-' !in r
    ensures ParseRegionFromZone(Join([area, location] + rest, '-')) == area + "-" + location
  {
    SplitJoin([area, location] + rest, '-');
  }

  lemma JoinThree(a: string, b: string, c: string)
    ensures Join([a, b, c], '-') == a + "-" + b + "-" + c
  {
    assert [a, b, c][1..] == [b, c] && [b, c][1..] == [c];
    assert Join([b, c], '-') == b + "-" + c;
    assert Join([a, b, c], '-') == a + "-" + (b + "-" + c);
  }

  /** Zone and region of a VM whose zone URL has the zone after its first `zones` segment. */
  lemma ZoneAndRegionOfUrl(pathOf: string -> string, url: string, before: seq<string>, after: seq<string>,
                           area: string, location: string, letter: string)
    requires forall s :: s in before + after ==> '/' !in s
    requires "zones" !in before
    requires forall s :: s in [area, location, letter] ==> '/' !in s && '-' !in s
    requires pathOf(url) == Join(before + ["zones", Join([area, location, letter], '-')] + after, '/')
    ensures GetZoneAndRegion(pathOf, url) ==
              Success((area + "-" + location + "-" + letter, area + "-" + location))
  {
    var zone := Join([area, location, letter], '-');
    JoinThree(area, location, letter);
    assert area in [area, location, letter] && location in [area, location, letter] && letter in [area, location, letter];
    assert '/' !in zone;
    var segments := before + ["zones", zone] + after;
    assert forall s :: s in segments ==> s in before + after || s == "zones" || s == zone;
    assert '/' !in "zones";
    assert segments[..|before|] == before && segments[|before|] == "zones" && segments[|before| + 1] == zone;
    ParamFollowsTheFirstKey(pathOf, url, segments, "zones");
    RegionOfZone(area, location, [letter]);
    assert [area, location] + [letter] == [area, location, letter];
  }
}
