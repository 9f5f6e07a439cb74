/**
  The query paths of the recommender service: which locations are asked, which path is built
  for a location and a recommender, and what is read back out of a path by splitting it at
  "locations/".
 */
module RecommendationParents {
  import opened Basics
  import opened Text
  import opened Sequences

  const MARKER := "locations/"

  // ---------- which locations ----------

  function LastTwo(s: string): string
  {
    if |s| < 2 then s else s[|s| - 2..]
  }

  predicate IsZone(location: string)
  {
    var end := LastTwo(location);
    end == "-a" || end == "-b" || end == "-c"
  }

  function Selected(location: string, regions: set<string>): seq<string>
  {
    (if IsZone(location) then [location[..|location| - 2]] else []) +
    (if location in regions then [location] else [])
  }

  function AvailableLocations(locations: seq<string>, regions: set<string>): seq<string>
  {
    if locations == [] then []
    else AvailableLocations(locations[..|locations| - 1], regions) + Selected(locations[|locations| - 1], regions)
  }

  method SelectAvailableLocations(locations: seq<string>, regions: set<string>) returns (available: seq<string>)
    ensures available == AvailableLocations(locations, regions)
  {
    available := [];
    for i := 0 to |locations|
      invariant available == AvailableLocations(locations[..i], regions)
    {
      assert locations[..i + 1][..i] == locations[..i];
      var location := locations[i];
      if IsZone(location) {
        available := available + [location[..|location| - 2]];
      }
      if location in regions {
        available := available + [location];
      }
    }
    assert locations[..|locations|] == locations;
  }

  /** A text is a zone of a location exactly when it is the location with a zone ending. */
  lemma ZoneOf(text: string, location: string)
    ensures IsZone(text) && text[..|text| - 2] == location
       <==> text == location + "-a" || text == location + "-b" || text == location + "-c"
    ensures location + "-a" != location + "-b" && location + "-b" != location + "-c" && location + "-a" != location + "-c"
    ensures location != location + "-a" && location != location + "-b" && location != location + "-c"
  {
    if |text| >= 2 {
      assert text == text[..|text| - 2] + LastTwo(text);
    }
    assert |location + "-a"| == |location| + 2;
    assert (location + "-a")[|location| + 1] == 'a';
    assert (location + "-b")[|location| + 1] == 'b';
    assert (location + "-c")[|location| + 1] == 'c';
    assert LastTwo(location + "-a") == "-a" && LastTwo(location + "-b") == "-b" && LastTwo(location + "-c") == "-c";
    assert (location + "-a")[..|location|] == location;
    assert (location + "-b")[..|location|] == location;
    assert (location + "-c")[..|location|] == location;
  }

  /** How often the assets make a location available. */
  function TimesAvailable(locations: seq<string>, regions: set<string>, location: string): nat
  {
    Count(locations, location + "-a") + Count(locations, location + "-b") + Count(locations, location + "-c") +
    (if location in regions then Count(locations, location) else 0)
  }

  lemma CountOfSelected(text: string, regions: set<string>, location: string)
    ensures Count(Selected(text, regions), location) ==
              (if text == location + "-a" || text == location + "-b" || text == location + "-c" then 1 else 0)
              + (if location in regions && text == location then 1 else 0)
  {
    ZoneOf(text, location);
    var zones, regionsOf := if IsZone(text) then [text[..|text| - 2]] else [], if text in regions then [text] else [];
    assert Selected(text, regions) == zones + regionsOf;
    CountAppend(zones, regionsOf, location);
  }

  lemma TimesAvailableNext(front: seq<string>, last: string, regions: set<string>, location: string)
    ensures TimesAvailable(front + [last], regions, location) ==
              TimesAvailable(front, regions, location)
              + (if last == location + "-a" || last == location + "-b" || last == location + "-c" then 1 else 0)
              + (if location in regions && last == location then 1 else 0)
  {
    CountNext(front, last, location);
    CountNext(front, last, location + "-a");
    CountNext(front, last, location + "-b");
    CountNext(front, last, location + "-c");
    ZoneOf(last, location);
  }

  /**
    How often a location is asked: once for each of its zones among the assets, and once for
    each mention of itself when it is a known region. Two zones make the same region twice.
   */
  lemma {:induction false} HowOftenALocationIsAsked(locations: seq<string>, regions: set<string>, location: string)
    ensures Count(AvailableLocations(locations, regions), location) == TimesAvailable(locations, regions, location)
  {
    if locations != [] {
      var front, last := locations[..|locations| - 1], locations[|locations| - 1];
      assert locations == front + [last];
      HowOftenALocationIsAsked(front, regions, location);
      CountAppend(AvailableLocations(front, regions), Selected(last, regions), location);
      CountOfSelected(last, regions, location);
      TimesAvailableNext(front, last, regions, location);
    }
  }

  // ---------- which paths ----------

  function Path(projectId: string, location: string, recommenderId: string): string
  {
    "projects/" + projectId + "/locations/" + location + "/recommenders/" + recommenderId
  }

  /** A region is asked with its three zones when the recommender is about cost. */
  predicate WithZones(location: string, recommenderId: string, costIds: set<string>)
  {
    recommenderId in costIds && location != "global" && !IsZone(location)
  }

  function Places(location: string, recommenderId: string, costIds: set<string>): seq<string>
  {
    if WithZones(location, recommenderId, costIds)
    then [location, location + "-a", location + "-b", location + "-c"]
    else [location]
  }

  function PathsOf(projectId: string, location: string, recommenderId: string, costIds: set<string>): seq<string>
  {
    Map(place => Path(projectId, place, recommenderId), Places(location, recommenderId, costIds))
  }

  function LocationPaths(projectId: string, location: string, ids: seq<string>, costIds: set<string>): seq<string>
  {
    Flatten(Map(id => PathsOf(projectId, location, id, costIds), ids))
  }

  function Parents(projectId: string, available: seq<string>, ids: seq<string>, costIds: set<string>): seq<string>
  {
    Flatten(Map(location => LocationPaths(projectId, location, ids, costIds), available))
  }

  method LocationParents(projectId: string, location: string, ids: seq<string>, costIds: set<string>)
    returns (parents: seq<string>)
    ensures parents == LocationPaths(projectId, location, ids, costIds)
  {
    parents := [];
    ghost var blocks := Map(id => PathsOf(projectId, location, id, costIds), ids);
    for j := 0 to |ids|
      invariant parents == Flatten(blocks[..j])
    {
      FlattenUpTo(blocks, j);
      var id := ids[j];
      var paths := IdParents(projectId, location, id, costIds);
      parents := parents + paths;
    }
    assert blocks[..|ids|] == blocks;
  }

  method CreateRecommendationParents(projectId: string, locations: seq<string>, ids: seq<string>,
                                     costIds: set<string>, regions: set<string>) returns (parents: seq<string>)
    ensures parents == Parents(projectId, AvailableLocations(locations, regions), ids, costIds)
  {
    parents := [];
    var available := SelectAvailableLocations(locations, regions);
    ghost var blocks := Map(location => LocationPaths(projectId, location, ids, costIds), available);
    for i := 0 to |available|
      invariant parents == Flatten(blocks[..i])
    {
      FlattenUpTo(blocks, i);
      var paths := LocationParents(projectId, available[i], ids, costIds);
      parents := parents + paths;
    }
    assert blocks[..|available|] == blocks;
  }

  method IdParents(projectId: string, location: string, id: string, costIds: set<string>) returns (parents: seq<string>)
    ensures parents == PathsOf(projectId, location, id, costIds)
  {
    if id in costIds && location != "global" && !IsZone(location) {
      parents := [];
      var regionsAndZones := [location, location + "-a", location + "-b", location + "-c"];
      for k := 0 to |regionsAndZones|
        invariant parents == PathsOf(projectId, location, id, costIds)[..k]
      {
        parents := parents + [Path(projectId, regionsAndZones[k], id)];
      }
    } else {
      parents := [Path(projectId, location, id)];
    }
  }

  lemma {:induction false} FlattenMember<T>(blocks: seq<seq<T>>, x: T)
    ensures x in Flatten(blocks) <==> exists i :: 0 <= i < |blocks| && x in blocks[i]
  {
    if blocks != [] {
      FlattenMember(blocks[..|blocks| - 1], x);
    }
  }

  lemma LocationPathsExact(projectId: string, location: string, ids: seq<string>, costIds: set<string>, path: string)
    ensures path in LocationPaths(projectId, location, ids, costIds) <==>
              exists id, place :: id in ids && place in Places(location, id, costIds) && path == Path(projectId, place, id)
  {
    var blocks := Map(id => PathsOf(projectId, location, id, costIds), ids);
    FlattenMember(blocks, path);
    if exists id, place :: id in ids && place in Places(location, id, costIds) && path == Path(projectId, place, id) {
      var id, place :| id in ids && place in Places(location, id, costIds) && path == Path(projectId, place, id);
      var j :| 0 <= j < |ids| && ids[j] == id;
      var k :| 0 <= k < |Places(location, id, costIds)| && Places(location, id, costIds)[k] == place;
      assert PathsOf(projectId, location, id, costIds)[k] == path;
      assert path in blocks[j];
    } else {
      forall j | 0 <= j < |ids|
        ensures path !in blocks[j]
      {
        assert ids[j] in ids;
        assert forall k :: 0 <= k < |Places(location, ids[j], costIds)| ==>
            blocks[j][k] == Path(projectId, Places(location, ids[j], costIds)[k], ids[j])
            && Places(location, ids[j], costIds)[k] in Places(location, ids[j], costIds);
      }
    }
  }

  lemma ParentsByPlaces(projectId: string, available: seq<string>, ids: seq<string>, costIds: set<string>, path: string)
    ensures path in Parents(projectId, available, ids, costIds) <==>
              exists location, id, place :: location in available && id in ids && place in Places(location, id, costIds)
                                            && path == Path(projectId, place, id)
  {
    var blocks := Map(location => LocationPaths(projectId, location, ids, costIds), available);
    FlattenMember(blocks, path);
    if path in Parents(projectId, available, ids, costIds) {
      var i :| 0 <= i < |blocks| && path in blocks[i];
      LocationPathsExact(projectId, available[i], ids, costIds, path);
      assert available[i] in available;
    }
    forall location, id, place | location in available && id in ids && place in Places(location, id, costIds)
                                 && path == Path(projectId, place, id)
      ensures path in Parents(projectId, available, ids, costIds)
    {
      var i :| 0 <= i < |available| && available[i] == location;
      LocationPathsExact(projectId, location, ids, costIds, path);
      assert path in blocks[i];
    }
  }

  /** The text ends like a zone: in "-a", "-b" or "-c". */
  ghost predicate EndsInZone(text: string)
  {
    exists stem :: IsZoneOf(text, stem)
  }

  ghost predicate IsZoneOf(zone: string, region: string)
  {
    zone == region + "-a" || zone == region + "-b" || zone == region + "-c"
  }

  /** The location is asked at this place: itself, and for a cost recommender on a region each of its zones. */
  ghost predicate IsAskedAt(location: string, id: string, costIds: set<string>, place: string)
  {
    || place == location
    || (id in costIds && location != "global" && !EndsInZone(location) && IsZoneOf(place, location))
  }

  ghost predicate IsPathOf(path: string, projectId: string, place: string, id: string)
  {
    path == "projects/" + projectId + "/locations/" + place + "/recommenders/" + id
  }

  lemma EndsInZoneExactly(text: string)
    ensures IsZone(text) <==> EndsInZone(text)
    ensures IsZone(text) ==> IsZoneOf(text, text[..|text| - 2])
    ensures forall stem :: IsZoneOf(text, stem) ==> |text| >= 2 && stem == text[..|text| - 2]
  {
    if IsZone(text) {
      ZoneOf(text, text[..|text| - 2]);
      assert IsZoneOf(text, text[..|text| - 2]);
    }
    forall stem | IsZoneOf(text, stem)
      ensures IsZone(text) && |text| >= 2 && stem == text[..|text| - 2]
    {
      ZoneOf(text, stem);
    }
  }

  lemma PlacesExact(location: string, id: string, costIds: set<string>, place: string)
    ensures place in Places(location, id, costIds) <==> IsAskedAt(location, id, costIds, place)
  {
    EndsInZoneExactly(location);
  }

  /**
    A path is asked exactly when it is that of an available location and a recommender of the
    table, or of one of the location's three zones when the recommender is a cost one and the
    location is a region: not "global", and not itself a zone.
   */
  lemma ParentsExact(projectId: string, available: seq<string>, ids: seq<string>, costIds: set<string>, path: string)
    ensures path in Parents(projectId, available, ids, costIds) <==>
              exists location, id, place :: location in available && id in ids && IsAskedAt(location, id, costIds, place)
                                            && IsPathOf(path, projectId, place, id)
  {
    ParentsByPlaces(projectId, available, ids, costIds, path);
    forall location, id, place
      ensures place in Places(location, id, costIds) <==> IsAskedAt(location, id, costIds, place)
    {
      PlacesExact(location, id, costIds, place);
    }
    forall place, id
      ensures path == Path(projectId, place, id) <==> IsPathOf(path, projectId, place, id)
    {
    }
  }

  /** The paths of later locations come behind those of earlier ones. */
  lemma ParentsInOrder(projectId: string, a: seq<string>, b: seq<string>, ids: seq<string>, costIds: set<string>)
    ensures Parents(projectId, a + b, ids, costIds) ==
              Parents(projectId, a, ids, costIds) + Parents(projectId, b, ids, costIds)
  {
    FlattenMapBoth(location => LocationPaths(projectId, location, ids, costIds), a, b);
  }

  /** The paths of later recommenders come behind those of earlier ones. */
  lemma LocationPathsInOrder(projectId: string, location: string, a: seq<string>, b: seq<string>, costIds: set<string>)
    ensures LocationPaths(projectId, location, a + b, costIds) ==
              LocationPaths(projectId, location, a, costIds) + LocationPaths(projectId, location, b, costIds)
  {
    FlattenMapBoth(id => PathsOf(projectId, location, id, costIds), a, b);
  }

  /** One location and one recommender: the location's own path, then those of its zones if they are asked. */
  lemma PathsOfOne(projectId: string, location: string, id: string, costIds: set<string>)
    ensures Parents(projectId, [location], [id], costIds) ==
              if id in costIds && location != "global" && !EndsInZone(location)
              then [Path(projectId, location, id), Path(projectId, location + "-a", id),
                    Path(projectId, location + "-b", id), Path(projectId, location + "-c", id)]
              else [Path(projectId, location, id)]
  {
    FlattenMapOne(other => PathsOf(projectId, location, other, costIds), id);
    FlattenMapOne(place => LocationPaths(projectId, place, [id], costIds), location);
    PathsSpelledOut(projectId, location, id, costIds);
  }

  lemma PathsSpelledOut(projectId: string, location: string, id: string, costIds: set<string>)
    ensures PathsOf(projectId, location, id, costIds) ==
              if id in costIds && location != "global" && !EndsInZone(location)
              then [Path(projectId, location, id), Path(projectId, location + "-a", id),
                    Path(projectId, location + "-b", id), Path(projectId, location + "-c", id)]
              else [Path(projectId, location, id)]
  {
    EndsInZoneExactly(location);
  }

  lemma AvailableNext(front: seq<string>, last: string, regions: set<string>)
    ensures AvailableLocations(front + [last], regions) == AvailableLocations(front, regions) + Selected(last, regions)
  {
    assert (front + [last])[..|front|] == front;
  }

  /** One asset location: the region it is a zone of, then the location itself when it is a known region. */
  lemma AvailableOfOne(location: string, regions: set<string>)
    ensures forall region :: IsZoneOf(location, region) ==>
              AvailableLocations([location], regions) == [region] + (if location in regions then [location] else [])
    ensures !EndsInZone(location) ==>
              AvailableLocations([location], regions) == if location in regions then [location] else []
  {
    EndsInZoneExactly(location);
    var one := [location];
    assert one[..|one| - 1] == [];
    assert AvailableLocations([], regions) == [];
    assert AvailableLocations(one, regions) == [] + Selected(location, regions);
  }

  /** Asset order: the locations of later assets come behind those of earlier ones. */
  lemma {:induction false} AvailableInOrder(a: seq<string>, b: seq<string>, regions: set<string>)
    ensures AvailableLocations(a + b, regions) == AvailableLocations(a, regions) + AvailableLocations(b, regions)
  {
    if b == [] {
      assert a + b == a;
    } else {
      var front, last := b[..|b| - 1], b[|b| - 1];
      AvailableInOrder(a, front, regions);
      assert b == front + [last];
      AppendRegroups(a, front, [last]);
      AvailableNext(a + front, last, regions);
      AvailableNext(front, last, regions);
      AppendRegroups(AvailableLocations(a, regions), AvailableLocations(front, regions), Selected(last, regions));
    }
  }

  // ---------- how often a path is asked ----------

  ghost predicate SlashFree(locations: seq<string>)
  {
    forall l :: l in locations ==> '/' !in l
  }

  lemma CutAtSlash(a: string, b: string, s: string, t: string)
    requires '/' !in a && '/' !in b && a + ['/'] + s == b + ['/'] + t
    ensures a == b && s == t
  {
    BeforeMarker(a, '/', s);
    BeforeMarker(b, '/', t);
    assert (a + ['/'] + s)[..|a|] == a && (b + ['/'] + t)[..|b|] == b;
    assert (a + ['/'] + s)[|a| + 1..] == s && (b + ['/'] + t)[|b| + 1..] == t;
  }

  lemma CutHead(head: string, s: string, t: string)
    requires head + s == head + t
    ensures s == t
  {
    assert (head + s)[|head|..] == s && (head + t)[|head|..] == t;
  }

  /** Different places or recommenders have different paths. */
  lemma PathsDiffer(projectId: string, a: string, b: string, first: string, second: string)
    requires '/' !in a && '/' !in b
    ensures Path(projectId, a, first) == Path(projectId, b, second) <==> a == b && first == second
  {
    var head, s, t := "projects/" + projectId + "/locations/", "recommenders/" + first, "recommenders/" + second;
    if Path(projectId, a, first) == Path(projectId, b, second) {
      assert Path(projectId, a, first) == head + (a + ['/'] + s);
      assert Path(projectId, b, second) == head + (b + ['/'] + t);
      CutHead(head, a + ['/'] + s, b + ['/'] + t);
      CutAtSlash(a, b, s, t);
      CutHead("recommenders/", first, second);
    }
  }

  /** How often one location is asked for a place: as itself, and as one of its zones. */
  function AskedBy(location: string, id: string, costIds: set<string>, place: string): nat
  {
    (if location == place then 1 else 0) +
    (if WithZones(location, id, costIds) && IsZone(place) && place[..|place| - 2] == location then 1 else 0)
  }

  lemma CountFour<T>(a: T, b: T, c: T, d: T, x: T)
    ensures Count([a, b, c, d], x) ==
              (if a == x then 1 else 0) + (if b == x then 1 else 0) + (if c == x then 1 else 0) + (if d == x then 1 else 0)
  {
    assert [a, b, c, d] == ((([] + [a]) + [b]) + [c]) + [d];
    CountNext((([] + [a]) + [b]) + [c], d, x);
    CountNext(([] + [a]) + [b], c, x);
    CountNext([] + [a], b, x);
    CountNext([], a, x);
  }

  lemma ZonePathsCount(projectId: string, location: string, id: string, place: string)
    requires '/' !in location && '/' !in place
    ensures Count([Path(projectId, location, id), Path(projectId, location + "-a", id),
                   Path(projectId, location + "-b", id), Path(projectId, location + "-c", id)], Path(projectId, place, id))
              == (if location == place then 1 else 0)
                 + (if IsZone(place) && place[..|place| - 2] == location then 1 else 0)
  {
    var a, b, c := location + "-a", location + "-b", location + "-c";
    PathsDiffer(projectId, location, place, id, id);
    PathsDiffer(projectId, a, place, id, id);
    PathsDiffer(projectId, b, place, id, id);
    PathsDiffer(projectId, c, place, id, id);
    CountFour(Path(projectId, location, id), Path(projectId, a, id), Path(projectId, b, id), Path(projectId, c, id),
              Path(projectId, place, id));
    ZoneOf(place, location);
  }

  lemma PathsOfCount(projectId: string, location: string, id: string, costIds: set<string>, place: string)
    requires '/' !in location && '/' !in place
    ensures Count(PathsOf(projectId, location, id, costIds), Path(projectId, place, id))
              == AskedBy(location, id, costIds, place)
  {
    if WithZones(location, id, costIds) {
      ZonePathsCount(projectId, location, id, place);
      assert PathsOf(projectId, location, id, costIds) ==
             [Path(projectId, location, id), Path(projectId, location + "-a", id),
              Path(projectId, location + "-b", id), Path(projectId, location + "-c", id)];
    } else {
      PathsDiffer(projectId, location, place, id, id);
      assert PathsOf(projectId, location, id, costIds) == [] + [Path(projectId, location, id)];
      CountNext([], Path(projectId, location, id), Path(projectId, place, id));
    }
  }

  lemma OtherIdsPaths(projectId: string, location: string, id: string, other: string, costIds: set<string>, place: string)
    requires '/' !in location && '/' !in place && id != other
    ensures Path(projectId, place, id) !in PathsOf(projectId, location, other, costIds)
  {
    var places := Places(location, other, costIds);
    forall k | 0 <= k < |places|
      ensures PathsOf(projectId, location, other, costIds)[k] != Path(projectId, place, id)
    {
      PathsDiffer(projectId, places[k], place, other, id);
    }
  }

  lemma LocationPathsCount(projectId: string, location: string, ids: seq<string>, costIds: set<string>,
                           id: string, place: string)
    requires '/' !in location && '/' !in place
    requires id in ids && NoRepeats(ids)
    ensures Count(LocationPaths(projectId, location, ids, costIds), Path(projectId, place, id))
              == AskedBy(location, id, costIds, place)
  {
    var f := other => PathsOf(projectId, location, other, costIds);
    forall other | other in ids && other != id
      ensures Path(projectId, place, id) !in f(other)
    {
      OtherIdsPaths(projectId, location, id, other, costIds, place);
    }
    CountOfNoRepeats(ids, id);
    FlattenMapCount(f, ids, id, Path(projectId, place, id));
    PathsOfCount(projectId, location, id, costIds, place);
    assert 1 * AskedBy(location, id, costIds, place) == AskedBy(location, id, costIds, place);
  }

  /**
    How often a place is asked: once per mention as a location, and for a cost recommender once
    more per mention of the region it is a zone of.
   */
  ghost function Asked(available: seq<string>, id: string, costIds: set<string>, place: string): nat
  {
    if |place| >= 2 && EndsInZone(place) && id in costIds then
      var region := place[..|place| - 2];
      Count(available, place) + (if region != "global" && !EndsInZone(region) then Count(available, region) else 0)
    else Count(available, place)
  }

  lemma AskedNext(front: seq<string>, last: string, id: string, costIds: set<string>, place: string)
    ensures Asked(front + [last], id, costIds, place) == Asked(front, id, costIds, place) + AskedBy(last, id, costIds, place)
  {
    CountNext(front, last, place);
    EndsInZoneExactly(place);
    if IsZone(place) {
      CountNext(front, last, place[..|place| - 2]);
      EndsInZoneExactly(place[..|place| - 2]);
    }
  }

  /**
    The exact number of times a path is asked. Location names hold no slash: they are cut out
    of asset names at slashes.
   */
  lemma {:induction false} HowOftenAPathIsAsked(projectId: string, available: seq<string>, ids: seq<string>,
                                                costIds: set<string>, id: string, place: string)
    requires SlashFree(available) && '/' !in place
    requires id in ids && NoRepeats(ids)
    ensures Count(Parents(projectId, available, ids, costIds), Path(projectId, place, id))
              == Asked(available, id, costIds, place)
  {
    if available != [] {
      var front, last := available[..|available| - 1], available[|available| - 1];
      var f := location => LocationPaths(projectId, location, ids, costIds);
      assert available == front + [last];
      HowOftenAPathIsAsked(projectId, front, ids, costIds, id, place);
      FlattenMapNext(f, front, last);
      CountAppend(Flatten(Map(f, front)), f(last), Path(projectId, place, id));
      LocationPathsCount(projectId, last, ids, costIds, id, place);
      AskedNext(front, last, id, costIds, place);
    }
  }

  /** A region that a cost recommender is asked for is available together with one of its own zones. */
  ghost predicate ZoneBesideRegion(available: seq<string>, ids: seq<string>, costIds: set<string>)
  {
    exists id, region, zone :: && id in ids && id in costIds && region in available && zone in available
                               && region != "global" && !EndsInZone(region) && IsZoneOf(zone, region)
  }

  lemma PlacesAreSlashFree(location: string, id: string, costIds: set<string>)
    requires '/' !in location
    ensures forall place :: place in Places(location, id, costIds) ==> '/' !in place
  {
    assert '/' !in location + "-a" && '/' !in location + "-b" && '/' !in location + "-c";
  }

  lemma PathOfParents(projectId: string, available: seq<string>, ids: seq<string>, costIds: set<string>, path: string)
    returns (id: string, place: string)
    requires SlashFree(available) && path in Parents(projectId, available, ids, costIds)
    ensures id in ids && '/' !in place && path == Path(projectId, place, id)
  {
    ParentsByPlaces(projectId, available, ids, costIds, path);
    var location, i, p :| location in available && i in ids && p in Places(location, i, costIds)
                          && path == Path(projectId, p, i);
    PlacesAreSlashFree(location, i, costIds);
    id, place := i, p;
  }

  lemma AskedAtMostOnce(available: seq<string>, ids: seq<string>, costIds: set<string>, id: string, place: string)
    requires NoRepeats(available) && !ZoneBesideRegion(available, ids, costIds) && id in ids
    ensures Asked(available, id, costIds, place) <= 1
  {
    CountOfNoRepeats(available, place);
    EndsInZoneExactly(place);
    if IsZone(place) {
      CountOfNoRepeats(available, place[..|place| - 2]);
    }
  }

  lemma NoRepeatedPath(projectId: string, available: seq<string>, ids: seq<string>, costIds: set<string>)
    requires SlashFree(available) && NoRepeats(ids)
    requires NoRepeats(available) && !ZoneBesideRegion(available, ids, costIds)
    ensures NoRepeats(Parents(projectId, available, ids, costIds))
  {
    var parents := Parents(projectId, available, ids, costIds);
    forall i, j | 0 <= i < j < |parents|
      ensures parents[i] != parents[j]
    {
      if parents[i] == parents[j] {
        var id, place := PathOfParents(projectId, available, ids, costIds, parents[i]);
        HowOftenAPathIsAsked(projectId, available, ids, costIds, id, place);
        AskedAtMostOnce(available, ids, costIds, id, place);
        CountOfTwo(parents, i, j);
        assert false;
      }
    }
  }

  lemma SomePathRepeats(projectId: string, available: seq<string>, ids: seq<string>, costIds: set<string>,
                        id: string, place: string)
    requires SlashFree(available) && NoRepeats(ids) && id in ids && '/' !in place
    requires Asked(available, id, costIds, place) > 1
    ensures !NoRepeats(Parents(projectId, available, ids, costIds))
  {
    HowOftenAPathIsAsked(projectId, available, ids, costIds, id, place);
    if NoRepeats(Parents(projectId, available, ids, costIds)) {
      CountOfNoRepeats(Parents(projectId, available, ids, costIds), Path(projectId, place, id));
    }
  }

  lemma {:induction false} NothingAsked(projectId: string, available: seq<string>, costIds: set<string>)
    ensures NoRepeats(Parents(projectId, available, [], costIds))
  {
    var parents := Parents(projectId, available, [], costIds);
    if parents != [] {
      ParentsExact(projectId, available, [], costIds, parents[0]);
      assert false;
    }
  }

  lemma RepeatedLocation(projectId: string, available: seq<string>, ids: seq<string>, costIds: set<string>)
    requires SlashFree(available) && NoRepeats(ids) && ids != [] && !NoRepeats(available)
    ensures !NoRepeats(Parents(projectId, available, ids, costIds))
  {
    var i, j :| 0 <= i < j < |available| && available[i] == available[j];
    CountOfTwo(available, i, j);
    assert available[i] in available && ids[0] in ids;
    SomePathRepeats(projectId, available, ids, costIds, ids[0], available[i]);
  }

  lemma RepeatedZone(projectId: string, available: seq<string>, ids: seq<string>, costIds: set<string>)
    requires SlashFree(available) && NoRepeats(ids) && ZoneBesideRegion(available, ids, costIds)
    ensures !NoRepeats(Parents(projectId, available, ids, costIds))
  {
    var id, region, zone :| && id in ids && id in costIds && region in available && zone in available
                            && region != "global" && !EndsInZone(region) && IsZoneOf(zone, region);
    EndsInZoneExactly(zone);
    assert region == zone[..|zone| - 2];
    CountIn(available, zone);
    CountIn(available, region);
    SomePathRepeats(projectId, available, ids, costIds, id, zone);
  }

  /**
    No path is asked twice exactly when no available location repeats and no region of a cost
    recommender is available together with one of its zones.
   */
  lemma NoPathIsAskedTwiceExactlyWhen(projectId: string, available: seq<string>, ids: seq<string>, costIds: set<string>)
    requires SlashFree(available) && NoRepeats(ids)
    ensures NoRepeats(Parents(projectId, available, ids, costIds)) <==>
              ids == [] || (NoRepeats(available) && !ZoneBesideRegion(available, ids, costIds))
  {
    if ids == [] {
      NothingAsked(projectId, available, costIds);
    } else if !NoRepeats(available) {
      RepeatedLocation(projectId, available, ids, costIds);
    } else if ZoneBesideRegion(available, ids, costIds) {
      RepeatedZone(projectId, available, ids, costIds);
    } else {
      NoRepeatedPath(projectId, available, ids, costIds);
    }
  }

  /**
    Among the available locations none repeats exactly when no two zones of one region, and no
    known region beside one of its zones, are among the assets.
   */
  lemma NoLocationRepeatsExactlyWhen(locations: seq<string>, regions: set<string>)
    ensures NoRepeats(AvailableLocations(locations, regions)) <==>
              forall location :: TimesAvailable(locations, regions, location) <= 1
  {
    var available := AvailableLocations(locations, regions);
    NoRepeatsByCount(available);
    if NoRepeats(available) {
      forall location
        ensures TimesAvailable(locations, regions, location) <= 1
      {
        HowOftenALocationIsAsked(locations, regions, location);
      }
    } else {
      var location :| Count(available, location) > 1;
      HowOftenALocationIsAsked(locations, regions, location);
    }
  }

  lemma {:induction false} AvailableIsSlashFree(locations: seq<string>, regions: set<string>)
    requires SlashFree(locations)
    ensures SlashFree(AvailableLocations(locations, regions))
  {
    if locations != [] {
      var front, last := locations[..|locations| - 1], locations[|locations| - 1];
      assert last in locations && forall l :: l in front ==> l in locations;
      AvailableIsSlashFree(front, regions);
    }
  }

  lemma TwoZonesOneRegion(region: string, regions: set<string>)
    requires region + "-a" !in regions && region + "-b" !in regions
    ensures AvailableLocations([region + "-a", region + "-b"], regions) == [region, region]
  {
    var a, b := region + "-a", region + "-b";
    ZoneOf(a, region);
    ZoneOf(b, region);
    assert Selected(a, regions) == [region] && Selected(b, regions) == [region];
    var one, both := [a], [a, b];
    assert one[..|one| - 1] == [] && both[..|both| - 1] == one;
    assert AvailableLocations([], regions) == [];
    assert AvailableLocations(one, regions) == [] + [region];
    assert AvailableLocations(both, regions) == ([] + [region]) + [region];
  }

  lemma OnePath(projectId: string, location: string, id: string)
    ensures LocationPaths(projectId, location, [id], {}) == [Path(projectId, location, id)]
  {
    var f := other => PathsOf(projectId, location, other, {});
    assert f(id) == [Path(projectId, location, id)];
    assert Map(f, [id]) == [f(id)];
    FlattenOne(f(id));
  }

  /** Two zones of one region among the assets: every path of the region is asked twice. */
  lemma TwoZonesAskTwice(projectId: string, region: string, id: string, regions: set<string>)
    requires region + "-a" !in regions && region + "-b" !in regions
    ensures var path := Path(projectId, region, id);
            Parents(projectId, AvailableLocations([region + "-a", region + "-b"], regions), [id], {}) == [path, path]
  {
    TwoZonesOneRegion(region, regions);
    var g := location => LocationPaths(projectId, location, [id], {});
    assert Map(g, [region, region]) == [g(region), g(region)];
    FlattenTwo(g(region), g(region));
    OnePath(projectId, region, id);
  }

  // ---------- reading a path back ----------

  /** `_, info = parent.split("locations/")`, then the text before the first slash; None is any unpacking error. */
  function GetLocation(parent: string): Option<string>
  {
    var parts := SplitOn(parent, MARKER);
    if |parts| != 2 then None
    else
      var n := Before(parts[1], '/');
      if n == |parts[1]| then None else Some(parts[1][..n])
  }

  /** Region and recommender of a recommendation's name. */
  function GetRegionAndRecommenderId(name: string): Option<(string, string)>
  {
    var parts := SplitOn(name, MARKER);
    if |parts| != 2 then None
    else
      var pieces := Split(parts[1], '/');
      if |pieces| < 4 then None else Some((pieces[0], pieces[2]))
  }

  lemma MarkerLetters()
    ensures |MARKER| == 10 && MARKER[0] == 'l' && MARKER[9] == '/'
    ensures forall k :: 0 <= k < 9 ==> MARKER[k] != '/'
  {
  }

  /** The marker's only slash is its last character. */
  lemma MarkerSlash(s: string, i: int)
    requires OccursAt(s, MARKER, i)
    ensures i + 10 <= |s| && s[i + 9] == '/' && s[i] == 'l'
    ensures forall k :: i <= k < i + 9 ==> s[k] != '/'
  {
    MarkerLetters();
    var m := s[i..i + |MARKER|];
    assert m == MARKER;
    assert s[i + 9] == m[9] && s[i] == m[0];
    forall k | i <= k < i + 9
      ensures s[k] != '/'
    {
      assert s[k] == m[k - i];
    }
  }

  lemma MarkerOnEitherSide(left: string, b: string)
    ensures Contains(left, MARKER) || Contains(b, MARKER) ==> Contains(left + b, MARKER)
  {
    if Contains(left, MARKER) {
      assert "" + left + b == left + b;
      OccursInside("", left, b, MARKER, Find(left, MARKER));
      ContainsAt(left + b, MARKER, Find(left, MARKER));
    } else if Contains(b, MARKER) {
      assert left + b + "" == left + b;
      OccursInside(left, b, "", MARKER, Find(b, MARKER));
      ContainsAt(left + b, MARKER, |left| + Find(b, MARKER));
    }
  }

  lemma MarkerOnOneSide(left: string, b: string)
    requires left != "" && left[|left| - 1] == '/' && Contains(left + b, MARKER)
    ensures Contains(left, MARKER) || Contains(b, MARKER)
  {
    var s := left + b;
    var i := Find(s, MARKER);
    assert s == "" + left + b && s == left + b + "";
    MarkerLetters();
    MarkerSlash(s, i);
    assert s[|left| - 1] == '/';
    if i < |left| {
      assert i + 9 <= |left| - 1;
      OccursInside("", left, b, MARKER, i);
      ContainsAt(left, MARKER, i);
    } else {
      OccursInside(left, b, "", MARKER, i - |left|);
      ContainsAt(b, MARKER, i - |left|);
    }
  }

  /** A marker does not reach over a slash. */
  lemma MarkerAcrossSlash(a: string, b: string)
    ensures Contains(a + "/" + b, MARKER) <==> Contains(a + "/", MARKER) || Contains(b, MARKER)
  {
    MarkerOnEitherSide(a + "/", b);
    if Contains(a + "/" + b, MARKER) {
      MarkerOnOneSide(a + "/", b);
    }
  }

  lemma TooShort(word: string)
    requires |word| < 10
    ensures !Contains(word, MARKER)
  {
    var i := Find(word, MARKER);
    if i >= 0 {
      MarkerSlash(word, i);
      assert false;
    }
  }

  /** A marker in `a + b` with too little room in `b` starts in `a`, at an 'l'. */
  lemma NoMarkerIn(a: string, b: string)
    requires |b| < 10 && 'l' !in a
    ensures !Contains(a + b, MARKER)
  {
    forall k | 0 <= k < |a|
      ensures (a + b)[k] != 'l'
    {
      assert (a + b)[k] == a[k] && a[k] in a;
    }
    var i := Find(a + b, MARKER);
    if i >= 0 {
      MarkerSlash(a + b, i);
      assert false;
    }
  }

  lemma NoMarkerInRecommenders()
    ensures !Contains("recommenders/", MARKER)
  {
    var a, b := "recommen", "ders/";
    assert 'l' !in a && |b| == 5;
    NoMarkerIn(a, b);
    assert a + b == "recommenders/";
  }

  lemma NoMarkerInRecommendations()
    ensures !Contains("recommendations/", MARKER)
  {
    var a, b := "recommen", "dations/";
    assert 'l' !in a && |b| == 8;
    NoMarkerIn(a, b);
    assert a + b == "recommendations/";
  }

  lemma NoMarkerInWords()
    ensures !Contains("projects/", MARKER) && !Contains("recommenders/", MARKER) && !Contains("recommendations/", MARKER)
  {
    TooShort("projects/");
    NoMarkerInRecommenders();
    NoMarkerInRecommendations();
  }

  lemma MarkerBehind(left: string, back: string, n: nat)
    requires n <= |left|
    ensures Contains((left + MARKER + back)[n..], MARKER)
  {
    var between := left[n..];
    assert (left + MARKER + back)[n..] == between + MARKER + back;
    assert OccursAt(MARKER, MARKER, 0);
    OccursInside(between, MARKER, back, MARKER, 0);
    ContainsAt(between + MARKER + back, MARKER, |between|);
  }

  lemma MarkerAfter(left: string, back: string)
    ensures OccursAt(left + MARKER + back, MARKER, |left|)
  {
    assert OccursAt(MARKER, MARKER, 0);
    OccursInside(left, MARKER, back, MARKER, 0);
  }

  lemma MarkerWithin(left: string, back: string, i: int)
    requires 0 <= i && i + |MARKER| <= |left|
    ensures OccursAt(left + MARKER + back, MARKER, i) <==> OccursAt(left, MARKER, i)
  {
    assert "" + left + (MARKER + back) == left + MARKER + back;
    OccursInside("", left, MARKER + back, MARKER, i);
  }

  /** A marker that starts in `left`, which ends in a slash, ends in it too. */
  lemma MarkerStaysLeft(left: string, back: string, i: int)
    requires left != "" && left[|left| - 1] == '/'
    requires i < |left| && OccursAt(left + MARKER + back, MARKER, i)
    ensures i + |MARKER| <= |left|
  {
    MarkerLetters();
    MarkerSlash(left + MARKER + back, i);
    assert (left + MARKER + back)[|left| - 1] == left[|left| - 1];
  }

  /** The first marker is the one between `left` and `back`, or one in `left` with another behind it. */
  lemma FirstMarker(left: string, back: string)
    requires left != "" && left[|left| - 1] == '/'
    ensures var s := left + MARKER + back;
            var i := Find(s, MARKER);
            && 0 <= i <= |left|
            && (i == |left| <==> !Contains(left, MARKER))
            && (i == |left| ==> s[i + |MARKER|..] == back)
            && (i < |left| ==> Contains(s[i + |MARKER|..], MARKER))
  {
    var s := left + MARKER + back;
    MarkerAfter(left, back);
    var i := Find(s, MARKER);
    if i < |left| {
      MarkerStaysLeft(left, back, i);
      MarkerWithin(left, back, i);
      ContainsAt(left, MARKER, i);
      MarkerBehind(left, back, i + |MARKER|);
    } else {
      assert s[i + |MARKER|..] == back;
      if Contains(left, MARKER) {
        MarkerWithin(left, back, Find(left, MARKER));
        assert false;
      }
    }
  }

  /**
    Splitting `left`, marker, `back`, with `left` ending in a slash, gives two parts exactly
    when neither side holds another marker; the second part is then `back`.
   */
  lemma SplitAtMarker(left: string, back: string)
    requires left != "" && left[|left| - 1] == '/'
    ensures var parts := SplitOn(left + MARKER + back, MARKER);
            && (|parts| == 2 <==> !Contains(left, MARKER) && !Contains(back, MARKER))
            && (|parts| == 2 ==> parts[1] == back)
  {
    FirstMarker(left, back);
    var s := left + MARKER + back;
    var i := Find(s, MARKER);
    assert SplitOn(s, MARKER) == [s[..i]] + SplitOn(s[i + |MARKER|..], MARKER);
  }

  /** No further marker in the project id, the location or the recommender id. */
  predicate Unambiguous(projectId: string, location: string, recommenderId: string)
  {
    !Contains(projectId + "/", MARKER) && !Contains(location + "/", MARKER) && !Contains(recommenderId, MARKER)
  }

  /** What stands in front of a path's marker, and behind it. */
  function Left(projectId: string): string
  {
    "projects" + "/" + (projectId + "/")
  }

  function Back(location: string, recommenderId: string): string
  {
    location + "/" + ("recommenders" + "/" + recommenderId)
  }

  lemma Regroup(words: string, slash: string, p: string, marker: string, l: string, r: string, id: string)
    ensures (words + slash) + p + (slash + marker) + l + (slash + r + slash) + id
         == (words + slash + (p + slash)) + marker + (l + slash + (r + slash + id))
  {
  }

  lemma PathShape(projectId: string, location: string, recommenderId: string)
    ensures Path(projectId, location, recommenderId) == Left(projectId) + MARKER + Back(location, recommenderId)
  {
    Regroup("projects", "/", projectId, MARKER, location, "recommenders", recommenderId);
    assert "projects" + "/" == "projects/" && "/" + MARKER == "/locations/" && "/" + "recommenders" + "/" == "/recommenders/";
  }

  lemma UnambiguousPath(projectId: string, location: string, recommenderId: string)
    ensures Unambiguous(projectId, location, recommenderId) <==>
              !Contains(Left(projectId), MARKER) && !Contains(Back(location, recommenderId), MARKER)
  {
    NoMarkerInWords();
    assert "recommenders" + "/" == "recommenders/" && "projects" + "/" == "projects/";
    MarkerAcrossSlash("projects", projectId + "/");
    MarkerAcrossSlash(location, "recommenders" + "/" + recommenderId);
    MarkerAcrossSlash("recommenders", recommenderId);
  }

  /**
    The location is read back from a path exactly when it has no slash and none of the three
    names brings a marker of its own; the slash that follows a name counts as part of it.
   */
  lemma LocationReadBack(projectId: string, location: string, recommenderId: string)
    ensures GetLocation(Path(projectId, location, recommenderId)) == Some(location)
       <==> '/' !in location && Unambiguous(projectId, location, recommenderId)
  {
    var back := Back(location, recommenderId);
    PathShape(projectId, location, recommenderId);
    UnambiguousPath(projectId, location, recommenderId);
    SplitAtMarker(Left(projectId), back);
    if '/' !in location {
      BeforeMarker(location, '/', "recommenders" + "/" + recommenderId);
      assert location + ['/'] + ("recommenders" + "/" + recommenderId) == back;
      assert back[..|location|] == location;
    }
    assert '/' !in back[..Before(back, '/')];
  }

  lemma MyLocations()
    ensures Contains("my-locations" + "/", MARKER)
  {
    assert "my-locations" + "/" == "my-" + MARKER;
    assert OccursAt(MARKER, MARKER, 0);
    MarkerOnEitherSide("my-", MARKER);
  }

  /** A project whose id ends in "locations" loses the location of all its recommendations. */
  lemma ProjectNamedLocations(location: string, recommenderId: string)
    ensures GetLocation(Path("my-locations", location, recommenderId)) == None
  {
    PathShape("my-locations", location, recommenderId);
    UnambiguousPath("my-locations", location, recommenderId);
    SplitAtMarker(Left("my-locations"), Back(location, recommenderId));
    MyLocations();
  }

  /** A recommendation's name is its recommender's path with two more segments. */
  function Name(projectId: string, location: string, recommenderId: string, recommendation: string): string
  {
    Path(projectId, location, recommenderId + "/" + ("recommendations" + "/" + recommendation))
  }

  lemma PiecesOfBack(location: string, recommenderId: string, recommendation: string)
    requires '/' !in location && '/' !in recommenderId
    ensures var tail := "recommendations" + "/" + recommendation;
            var pieces := Split(Back(location, recommenderId + "/" + tail), '/');
            |pieces| >= 4 && pieces[0] == location && pieces[2] == recommenderId
  {
    var tail := "recommendations" + "/" + recommendation;
    var id := recommenderId + "/" + tail;
    SplitFirst(location, '/', "recommenders" + "/" + id);
    SplitFirst("recommenders", '/', id);
    SplitFirst(recommenderId, '/', tail);
  }

  /** A recommendation's name gives back its location and recommender under the same condition. */
  lemma NameReadBack(projectId: string, location: string, recommenderId: string, recommendation: string)
    requires '/' !in location && '/' !in recommenderId
    ensures GetRegionAndRecommenderId(Name(projectId, location, recommenderId, recommendation)) ==
              if Unambiguous(projectId, location, recommenderId + "/") && !Contains(recommendation, MARKER)
              then Some((location, recommenderId)) else None
  {
    var tail := "recommendations" + "/" + recommendation;
    var id := recommenderId + "/" + tail;
    PathShape(projectId, location, id);
    UnambiguousPath(projectId, location, id);
    SplitAtMarker(Left(projectId), Back(location, id));
    NoMarkerInWords();
    assert "recommendations" + "/" == "recommendations/";
    MarkerAcrossSlash(recommenderId, tail);
    MarkerAcrossSlash("recommendations", recommendation);
    PiecesOfBack(location, recommenderId, recommendation);
  }
}
