/** The location-context service: resolves a position against the user's
    known places. Every place with coordinates is listed with its distance;
    a place within 200 m names the location (the last such place wins) and
    marks the user at home when it is a home; otherwise the nearest place is
    described. The listing is sorted by distance, stably, and cut to five.
    The great-circle distance is a parameter `dist` (from the request's and
    the place's coordinates to whole metres); the rows are the result of the
    known-places query, in query order. */
module LocationContext {
  import opened Common
  import opened Wire

  const KnownPlaceRadiusM: nat := 200
  const UnknownLocation: string := "未知位置"
  const MaxListed: nat := 5
  const UnnamedPlace: string := "unnamed"
  const UnknownType: string := "unknown"
  const HomeType: string := "home"

  /** A row of `user_known_places`; every column may be NULL. */
  datatype KnownPlaceRow = KnownPlaceRow(
    placeName: Option<string>,
    placeType: Option<string>,
    lat: Option<int>,
    lng: Option<int>)

  /** The response body. */
  datatype SemanticLocation = SemanticLocation(
    semanticLocation: string,
    isAtHome: bool,
    nearbyKnownPlaces: seq<NearbyPlace>)

  /** Python's `v or default` on an optional string: None and "" give the
      default. */
  function OrDefault(v: Option<string>, default: string): (r: string)
    ensures v.Some? && v.value != "" ==> r == v.value
    ensures v.None? || v.value == "" ==> r == default
  {
    if v.Some? && v.value != "" then v.value else default
  }

  /** An optional string inside an f-string: None prints as "None". */
  function NameText(v: Option<string>): string {
    if v.Some? then v.value else "None"
  }

  predicate HasCoordinates(row: KnownPlaceRow) {
    row.lat.Some? && row.lng.Some?
  }

  function DistanceOf(lat: int, lng: int, dist: (int, int, int, int) -> nat, row: KnownPlaceRow): nat
    requires HasCoordinates(row)
  {
    dist(lat, lng, row.lat.value, row.lng.value)
  }

  /** The row has coordinates and lies within the known-place radius. */
  predicate IsWithin(lat: int, lng: int, dist: (int, int, int, int) -> nat, row: KnownPlaceRow) {
    HasCoordinates(row) && DistanceOf(lat, lng, dist, row) <= KnownPlaceRadiusM
  }

  /** The listing entry for a row with coordinates. */
  function Listing(lat: int, lng: int, dist: (int, int, int, int) -> nat, row: KnownPlaceRow): NearbyPlace
    requires HasCoordinates(row)
  {
    NearbyPlace(OrDefault(row.placeName, UnnamedPlace), DistanceOf(lat, lng, dist, row),
                OrDefault(row.placeType, UnknownType))
  }

  function AtPlaceText(row: KnownPlaceRow): string {
    "在" + NameText(row.placeName) + "中"
  }

  function NearestText(p: NearbyPlace): string {
    "距离" + p.name + " " + NatText(p.distanceM) + " 米"
  }

  // ---------------------------------------------------------------------------
  // What the loop over the rows accumulates

  /** The entries of the rows with coordinates, in query order. */
  function Listed(lat: int, lng: int, dist: (int, int, int, int) -> nat, rows: seq<KnownPlaceRow>): seq<NearbyPlace> {
    if rows == [] then []
    else
      var last := rows[|rows| - 1];
      Listed(lat, lng, dist, rows[..|rows| - 1])
      + (if HasCoordinates(last) then [Listing(lat, lng, dist, last)] else [])
  }

  /** The index of the last row within the radius. */
  function LastWithin(lat: int, lng: int, dist: (int, int, int, int) -> nat, rows: seq<KnownPlaceRow>): (r: Option<nat>)
    ensures r.Some? ==> r.value < |rows| && IsWithin(lat, lng, dist, rows[r.value])
    ensures r.Some? ==> forall j :: r.value < j < |rows| ==> !IsWithin(lat, lng, dist, rows[j])
    ensures r.None? ==> forall j :: 0 <= j < |rows| ==> !IsWithin(lat, lng, dist, rows[j])
  {
    if rows == [] then None
    else if IsWithin(lat, lng, dist, rows[|rows| - 1]) then Some(|rows| - 1)
    else LastWithin(lat, lng, dist, rows[..|rows| - 1])
  }

  /** The location text the loop leaves: the last place within the radius,
      or the unknown-location text. */
  function LoopLocation(lat: int, lng: int, dist: (int, int, int, int) -> nat, rows: seq<KnownPlaceRow>): string {
    match LastWithin(lat, lng, dist, rows)
    case Some(k) => AtPlaceText(rows[k])
    case None => UnknownLocation
  }

  /** Some row within the radius is a home. */
  predicate HomeWithin(lat: int, lng: int, dist: (int, int, int, int) -> nat, rows: seq<KnownPlaceRow>) {
    exists j :: 0 <= j < |rows| && IsWithin(lat, lng, dist, rows[j]) && rows[j].placeType == Some(HomeType)
  }

  // ---------------------------------------------------------------------------
  // The stable sort by distance

  predicate SortedByDistance(s: seq<NearbyPlace>) {
    forall i, j :: 0 <= i < j < |s| ==> s[i].distanceM <= s[j].distanceM
  }

  /** The entries at distance `d`, in their order in `s`. */
  function AtDistance(s: seq<NearbyPlace>, d: nat): seq<NearbyPlace> {
    if s == [] then []
    else AtDistance(s[..|s| - 1], d) + (if s[|s| - 1].distanceM == d then [s[|s| - 1]] else [])
  }

  /** Puts `x` after every entry of `sorted` not farther than it. */
  function InsertByDistance(sorted: seq<NearbyPlace>, x: NearbyPlace): seq<NearbyPlace> {
    if sorted == [] || sorted[|sorted| - 1].distanceM <= x.distanceM then sorted + [x]
    else InsertByDistance(sorted[..|sorted| - 1], x) + [sorted[|sorted| - 1]]
  }

  /** `list.sort(key=distance)`: a stable sort, here by insertion. */
  function SortByDistance(s: seq<NearbyPlace>): seq<NearbyPlace> {
    if s == [] then [] else InsertByDistance(SortByDistance(s[..|s| - 1]), s[|s| - 1])
  }

  lemma {:induction false} InsertPermutes(sorted: seq<NearbyPlace>, x: NearbyPlace)
    ensures multiset(InsertByDistance(sorted, x)) == multiset(sorted) + multiset{x}
  {
    if !(sorted == [] || sorted[|sorted| - 1].distanceM <= x.distanceM) {
      var init, y := sorted[..|sorted| - 1], sorted[|sorted| - 1];
      InsertPermutes(init, x);
      assert sorted == init + [y];
    }
  }

  /** Inserting an entry no farther than `bound` among entries no farther
      than `bound` gives entries no farther than `bound`. */
  lemma {:induction false} InsertBelow(sorted: seq<NearbyPlace>, x: NearbyPlace, bound: nat)
    requires forall i :: 0 <= i < |sorted| ==> sorted[i].distanceM <= bound
    requires x.distanceM <= bound
    ensures forall i :: 0 <= i < |InsertByDistance(sorted, x)| ==> InsertByDistance(sorted, x)[i].distanceM <= bound
  {
    if !(sorted == [] || sorted[|sorted| - 1].distanceM <= x.distanceM) {
      InsertBelow(sorted[..|sorted| - 1], x, bound);
    }
  }

  lemma {:induction false} InsertKeepsOrder(sorted: seq<NearbyPlace>, x: NearbyPlace)
    requires SortedByDistance(sorted)
    ensures SortedByDistance(InsertByDistance(sorted, x))
  {
    if !(sorted == [] || sorted[|sorted| - 1].distanceM <= x.distanceM) {
      var init, y := sorted[..|sorted| - 1], sorted[|sorted| - 1];
      InsertKeepsOrder(init, x);
      InsertBelow(init, x, y.distanceM);
    }
  }

  lemma {:induction false} InsertKeepsTies(sorted: seq<NearbyPlace>, x: NearbyPlace, d: nat)
    ensures AtDistance(InsertByDistance(sorted, x), d)
         == AtDistance(sorted, d) + (if x.distanceM == d then [x] else [])
  {
    if sorted == [] || sorted[|sorted| - 1].distanceM <= x.distanceM {
      assert (sorted + [x])[..|sorted|] == sorted;
    } else {
      var init, y := sorted[..|sorted| - 1], sorted[|sorted| - 1];
      var ins := InsertByDistance(init, x);
      InsertKeepsTies(init, x, d);
      assert (ins + [y])[..|ins|] == ins;
    }
  }

  /** The sort returns the same entries, ordered by distance. */
  lemma {:induction false} SortOrders(s: seq<NearbyPlace>)
    ensures SortedByDistance(SortByDistance(s))
  {
    if s != [] {
      SortOrders(s[..|s| - 1]);
      InsertKeepsOrder(SortByDistance(s[..|s| - 1]), s[|s| - 1]);
    }
  }

  lemma {:induction false} SortPermutes(s: seq<NearbyPlace>)
    ensures multiset(SortByDistance(s)) == multiset(s)
    ensures |SortByDistance(s)| == |s|
  {
    assert |multiset(SortByDistance(s))| == |SortByDistance(s)|;
    if s != [] {
      var init := s[..|s| - 1];
      SortPermutes(init);
      InsertPermutes(SortByDistance(init), s[|s| - 1]);
      assert s == init + [s[|s| - 1]];
    }
  }

  /** The sort is stable: the entries at any one distance keep their query
      order. */
  lemma {:induction false} SortIsStable(s: seq<NearbyPlace>, d: nat)
    ensures AtDistance(SortByDistance(s), d) == AtDistance(s, d)
  {
    if s != [] {
      var init := s[..|s| - 1];
      SortIsStable(init, d);
      InsertKeepsTies(SortByDistance(init), s[|s| - 1], d);
    }
  }

  // ---------------------------------------------------------------------------
  // The service

  /** The whole reply, as the loop, the sort, the nearest-place description
      and the cut to five compute it. */
  function Resolved(lat: int, lng: int, dist: (int, int, int, int) -> nat, rows: seq<KnownPlaceRow>): SemanticLocation {
    var sorted := SortByDistance(Listed(lat, lng, dist, rows));
    var location := LoopLocation(lat, lng, dist, rows);
    SemanticLocation(
      if location == UnknownLocation && sorted != [] then NearestText(sorted[0]) else location,
      HomeWithin(lat, lng, dist, rows),
      sorted[..Min(MaxListed, |sorted|)])
  }

  /** What one more row adds to each of the loop's accumulators. */
  lemma OneMoreRow(lat: int, lng: int, dist: (int, int, int, int) -> nat, pre: seq<KnownPlaceRow>, row: KnownPlaceRow)
    ensures Listed(lat, lng, dist, pre + [row])
         == Listed(lat, lng, dist, pre) + (if HasCoordinates(row) then [Listing(lat, lng, dist, row)] else [])
    ensures LoopLocation(lat, lng, dist, pre + [row])
         == if IsWithin(lat, lng, dist, row) then AtPlaceText(row) else LoopLocation(lat, lng, dist, pre)
    ensures HomeWithin(lat, lng, dist, pre + [row])
        <==> HomeWithin(lat, lng, dist, pre) || (IsWithin(lat, lng, dist, row) && row.placeType == Some(HomeType))
  {
    var rows := pre + [row];
    assert rows[..|rows| - 1] == pre;
    if HomeWithin(lat, lng, dist, rows) && !(IsWithin(lat, lng, dist, row) && row.placeType == Some(HomeType)) {
      var j :| 0 <= j < |rows| && IsWithin(lat, lng, dist, rows[j]) && rows[j].placeType == Some(HomeType);
      assert pre[j] == rows[j];
    }
    if HomeWithin(lat, lng, dist, pre) {
      var j :| 0 <= j < |pre| && IsWithin(lat, lng, dist, pre[j]) && pre[j].placeType == Some(HomeType);
      assert rows[j] == pre[j];
    }
  }

  method GetSemanticLocation(lat: int, lng: int, dist: (int, int, int, int) -> nat, rows: seq<KnownPlaceRow>)
    returns (reply: SemanticLocation)
    ensures reply == Resolved(lat, lng, dist, rows)
  {
    var nearby: seq<NearbyPlace> := [];
    var isAtHome := false;
    var location := UnknownLocation;
    for i := 0 to |rows|
      invariant nearby == Listed(lat, lng, dist, rows[..i])
      invariant location == LoopLocation(lat, lng, dist, rows[..i])
      invariant isAtHome <==> HomeWithin(lat, lng, dist, rows[..i])
    {
      var row := rows[i];
      assert rows[..i + 1] == rows[..i] + [row];
      OneMoreRow(lat, lng, dist, rows[..i], row);
      if row.lat.None? || row.lng.None? {
        continue;
      }
      var distance := dist(lat, lng, row.lat.value, row.lng.value);
      nearby := nearby + [NearbyPlace(OrDefault(row.placeName, UnnamedPlace), distance,
                                      OrDefault(row.placeType, UnknownType))];
      if distance <= KnownPlaceRadiusM {
        location := "在" + NameText(row.placeName) + "中";
        if row.placeType == Some(HomeType) {
          isAtHome := true;
        }
      }
    }
    assert rows[..|rows|] == rows;
    nearby := SortByDistance(nearby);
    if location == UnknownLocation && |nearby| > 0 {
      var nearest := nearby[0];
      location := "距离" + nearest.name + " " + NatText(nearest.distanceM) + " 米";
    }
    reply := SemanticLocation(location, isAtHome, nearby[..Min(MaxListed, |nearby|)]);
  }

  // ---------------------------------------------------------------------------
  // What the reply promises

  /** Exactly the rows with both coordinates are listed, each once, in query
      order: a row missing either coordinate is skipped. */
  lemma {:induction false} ListedRows(lat: int, lng: int, dist: (int, int, int, int) -> nat, rows: seq<KnownPlaceRow>)
    ensures forall j :: 0 <= j < |rows| && HasCoordinates(rows[j]) ==> Listing(lat, lng, dist, rows[j]) in Listed(lat, lng, dist, rows)
    ensures forall p :: p in Listed(lat, lng, dist, rows) ==>
      exists j :: 0 <= j < |rows| && HasCoordinates(rows[j]) && p == Listing(lat, lng, dist, rows[j])
  {
    if rows != [] {
      var init := rows[..|rows| - 1];
      ListedRows(lat, lng, dist, init);
      forall j | 0 <= j < |init|
        ensures init[j] == rows[j]
      {
      }
    }
  }

  /** The location text: the last place within 200 m in query order; when
      there is none, the nearest listed place and its distance; when nothing
      is listed, the unknown-location text. The user is at home exactly when
      a place within 200 m is a home. */
  lemma ResolvedLocation(lat: int, lng: int, dist: (int, int, int, int) -> nat, rows: seq<KnownPlaceRow>)
    ensures var r, k := Resolved(lat, lng, dist, rows), LastWithin(lat, lng, dist, rows);
      k.Some? ==> r.semanticLocation == AtPlaceText(rows[k.value])
    ensures var r, listed := Resolved(lat, lng, dist, rows), Listed(lat, lng, dist, rows);
      LastWithin(lat, lng, dist, rows).None? && listed != [] ==>
        r.semanticLocation == NearestText(SortByDistance(listed)[0])
    ensures var r := Resolved(lat, lng, dist, rows);
      Listed(lat, lng, dist, rows) == [] ==> r.semanticLocation == UnknownLocation && !r.isAtHome
    ensures Resolved(lat, lng, dist, rows).isAtHome <==>
      exists j :: 0 <= j < |rows| && IsWithin(lat, lng, dist, rows[j]) && rows[j].placeType == Some(HomeType)
  {
    var k := LastWithin(lat, lng, dist, rows);
    if k.Some? {
      assert AtPlaceText(rows[k.value])[0] == '在';
    }
    if Listed(lat, lng, dist, rows) == [] {
      ListedRows(lat, lng, dist, rows);
    }
  }

  /** The listing holds the five nearest places (all of them when fewer),
      nearest first: no dropped place is nearer than a kept one, and the first
      entry is the nearest of all. */
  lemma ResolvedListing(lat: int, lng: int, dist: (int, int, int, int) -> nat, rows: seq<KnownPlaceRow>)
    ensures var kept, listed := Resolved(lat, lng, dist, rows).nearbyKnownPlaces, Listed(lat, lng, dist, rows);
      |kept| == Min(MaxListed, |listed|) && SortedByDistance(kept)
      && multiset(kept) <= multiset(listed)
    ensures var kept, sorted := Resolved(lat, lng, dist, rows).nearbyKnownPlaces, SortByDistance(Listed(lat, lng, dist, rows));
      forall i, j :: 0 <= i < |kept| <= j < |sorted| ==> kept[i].distanceM <= sorted[j].distanceM
    ensures var kept, listed := Resolved(lat, lng, dist, rows).nearbyKnownPlaces, Listed(lat, lng, dist, rows);
      kept != [] ==> forall p :: p in listed ==> kept[0].distanceM <= p.distanceM
  {
    var listed := Listed(lat, lng, dist, rows);
    var sorted := SortByDistance(listed);
    SortOrders(listed);
    SortPermutes(listed);
    SortedPrefix(sorted, Min(MaxListed, |sorted|));
    if sorted != [] {
      FirstIsNearest(sorted, listed);
    }
  }

  /** A prefix of a sorted listing is sorted, is part of it, and is no
      farther than what it leaves out. */
  lemma SortedPrefix(sorted: seq<NearbyPlace>, n: nat)
    requires SortedByDistance(sorted) && n <= |sorted|
    ensures SortedByDistance(sorted[..n])
    ensures multiset(sorted[..n]) <= multiset(sorted)
    ensures forall i, j :: 0 <= i < n <= j < |sorted| ==> sorted[..n][i].distanceM <= sorted[j].distanceM
  {
    assert sorted == sorted[..n] + sorted[n..];
    assert multiset(sorted) == multiset(sorted[..n]) + multiset(sorted[n..]);
  }

  /** The first entry of a sorted arrangement of `listed` is a nearest one. */
  lemma FirstIsNearest(sorted: seq<NearbyPlace>, listed: seq<NearbyPlace>)
    requires SortedByDistance(sorted) && multiset(sorted) == multiset(listed) && sorted != []
    ensures forall p :: p in listed ==> sorted[0].distanceM <= p.distanceM
  {
    forall p | p in listed
      ensures sorted[0].distanceM <= p.distanceM
    {
      assert p in multiset(sorted);
      var k :| 0 <= k < |sorted| && sorted[k] == p;
    }
  }

  lemma {:induction false} NothingListed(lat: int, lng: int, dist: (int, int, int, int) -> nat, rows: seq<KnownPlaceRow>)
    requires forall j :: 0 <= j < |rows| ==> !HasCoordinates(rows[j])
    ensures Listed(lat, lng, dist, rows) == []
  {
    if rows != [] {
      NothingListed(lat, lng, dist, rows[..|rows| - 1]);
    }
  }

  /** A user with no usable known place gets the unknown-location reply. */
  lemma NoPlacesGiveUnknown(lat: int, lng: int, dist: (int, int, int, int) -> nat, rows: seq<KnownPlaceRow>)
    requires forall j :: 0 <= j < |rows| ==> !HasCoordinates(rows[j])
    ensures Resolved(lat, lng, dist, rows) == SemanticLocation(UnknownLocation, false, [])
  {
    NothingListed(lat, lng, dist, rows);
    ResolvedLocation(lat, lng, dist, rows);
  }
}
