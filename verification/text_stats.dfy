/**
 The key-location index: a multimap from a text ID to the ordered list of
 places (file names, workbook labels, symbol locations) where it was seen.
 Entries are only ever appended; the index is rebuilt from scratch for every
 audit.
 */
module TextStatsIndex {
  import opened Optional

  /** One observation of a text ID at a location, as the scanners produce it. */
  datatype Sighting = Sighting(textId: string, location: string)

  datatype TextStats = TextStats(locations: map<string, seq<string>>)

  /** Every recorded ID has at least one location. */
  ghost predicate Valid(stats: TextStats) {
    forall id :: id in stats.locations ==> |stats.locations[id]| > 0
  }

  /** A freshly constructed index. */
  function Empty(): (stats: TextStats)
    ensures Valid(stats)
    ensures forall id :: Locations(stats, id) == None
  {
    TextStats(map[])
  }

  /** The `text_ids` property: the set of IDs recorded so far. */
  function TextIds(stats: TextStats): set<string> {
    stats.locations.Keys
  }

  /** `locations(id)`: the recorded list, or `None` for an ID never added. */
  function Locations(stats: TextStats, id: string): (r: Option<seq<string>>)
    ensures r.None? <==> id !in TextIds(stats)
    ensures Valid(stats) && r.Some? ==> |r.value| > 0
  {
    if id !in stats.locations then None else Some(stats.locations[id])
  }

  /** `id in stats`. */
  function Contains(stats: TextStats, id: string): (r: bool)
    ensures r <==> Locations(stats, id).Some?
  {
    id in stats.locations
  }

  /** `add_entry(id, location)`: appends to the ID's list, or starts the list
      `[location]` when the ID is new. No other ID is affected. */
  function AddEntry(stats: TextStats, id: string, location: string): (r: TextStats)
    ensures TextIds(r) == TextIds(stats) + {id}
    ensures Locations(r, id) == Some(ValueOr(Locations(stats, id), []) + [location])
    ensures forall other :: other != id ==> Locations(r, other) == Locations(stats, other)
    ensures Valid(stats) ==> Valid(r)
  {
    if id in stats.locations then
      TextStats(stats.locations[id := stats.locations[id] + [location]])
    else
      assert [] + [location] == [location];
      TextStats(stats.locations[id := [location]])
  }

  /** The IDs named by a sequence of sightings. */
  ghost function IdsOf(sightings: seq<Sighting>): set<string> {
    set i | 0 <= i < |sightings| :: sightings[i].textId
  }

  /** The locations of the sightings of `id`, in input order. */
  ghost function LocationsOf(sightings: seq<Sighting>, id: string): seq<string>
    decreases |sightings|
  {
    if |sightings| == 0 then []
    else (if sightings[0].textId == id then [sightings[0].location] else [])
         + LocationsOf(sightings[1..], id)
  }

  /** Appending one sighting extends only its own ID's location list. */
  lemma {:induction false} LocationsOfSnoc(sightings: seq<Sighting>, s: Sighting, id: string)
    ensures LocationsOf(sightings + [s], id)
            == LocationsOf(sightings, id) + (if s.textId == id then [s.location] else [])
    decreases |sightings|
  {
    if |sightings| == 0 {
      assert sightings + [s] == [s];
      assert [s][1..] == [];
    } else {
      assert (sightings + [s])[1..] == sightings[1..] + [s];
      LocationsOfSnoc(sightings[1..], s, id);
    }
  }

  /** An ID has a non-empty location list exactly when some sighting names it. */
  lemma {:induction false} LocationsOfNonEmpty(sightings: seq<Sighting>, id: string)
    ensures |LocationsOf(sightings, id)| > 0 <==> id in IdsOf(sightings)
    decreases |sightings|
  {
    if |sightings| > 0 {
      LocationsOfNonEmpty(sightings[1..], id);
      assert IdsOf(sightings) == {sightings[0].textId} + IdsOf(sightings[1..]) by {
        forall x | x in IdsOf(sightings)
          ensures x in {sightings[0].textId} + IdsOf(sightings[1..])
        {
          var i :| 0 <= i < |sightings| && sightings[i].textId == x;
          if i > 0 {
            assert sightings[1..][i - 1] == sightings[i];
          }
        }
        forall x | x in IdsOf(sightings[1..])
          ensures x in IdsOf(sightings)
        {
          var i :| 0 <= i < |sightings[1..]| && sightings[1..][i].textId == x;
          assert sightings[i + 1] == sightings[1..][i];
        }
      }
    }
  }

  /** `create_stats(sightings)`: adds every sighting in input order. Each ID's
      list holds one location per sighting of that ID, in input order, and the
      index knows exactly the IDs that were sighted. */
  method CreateStats(sightings: seq<Sighting>) returns (stats: TextStats)
    ensures Valid(stats)
    ensures TextIds(stats) == IdsOf(sightings)
    ensures forall id :: id in TextIds(stats) ==> Locations(stats, id) == Some(LocationsOf(sightings, id))
  {
    stats := Empty();
    var i := 0;
    while i < |sightings|
      invariant 0 <= i <= |sightings|
      invariant Valid(stats)
      invariant TextIds(stats) == IdsOf(sightings[..i])
      invariant forall id :: id in TextIds(stats) ==> Locations(stats, id) == Some(LocationsOf(sightings[..i], id))
    {
      var s := sightings[i];
      assert sightings[..i + 1] == sightings[..i] + [s];
      forall id
        ensures LocationsOf(sightings[..i + 1], id)
                == LocationsOf(sightings[..i], id) + (if s.textId == id then [s.location] else [])
      {
        LocationsOfSnoc(sightings[..i], s, id);
      }
      LocationsOfNonEmpty(sightings[..i], s.textId);
      var next := AddEntry(stats, s.textId, s.location);
      forall id | id in TextIds(next)
        ensures Locations(next, id) == Some(LocationsOf(sightings[..i + 1], id))
      {
        var before := LocationsOf(sightings[..i], id);
        if id != s.textId {
          assert LocationsOf(sightings[..i + 1], id) == before + [] == before;
          assert Locations(next, id) == Locations(stats, id);
        } else {
          assert ValueOr(Locations(stats, id), []) == before;
        }
      }
      stats := next;
      i := i + 1;
    }
    assert sightings[..i] == sightings;
  }
}
