/**
 The section-only guard. Catalog keys are formed as `<sheet>_<cell id>`, so a
 scanned ID that is just a sheet name, or a sheet name plus one character,
 is a scanning artifact; the prefab and game-data scanners report such IDs
 and keep them out of the set of used IDs.
 */
module SectionGuard {
  import opened Text
  import opened TextStatsIndex
  import opened Reconcile

  /** `has_section_only(name)` over the workbook's sheet names, checked in
      order from index `from`. */
  function HasSectionOnlyFrom(sheets: seq<string>, name: string, from: nat): (r: bool)
    requires from <= |sheets|
    ensures r <==> exists i :: from <= i < |sheets| && IsPrefix(sheets[i], name) && |name| - |sheets[i]| < 2
    decreases |sheets| - from
  {
    if from == |sheets| then false
    else if IsPrefix(sheets[from], name) && |name| - |sheets[from]| < 2 then true
    else HasSectionOnlyFrom(sheets, name, from + 1)
  }

  /** `has_section_only(name)`: some sheet name is a prefix of `name` and
      `name` is less than two characters longer than it. */
  function HasSectionOnly(sheets: seq<string>, name: string): (r: bool)
    ensures r <==> exists i :: 0 <= i < |sheets| && IsPrefix(sheets[i], name) && |name| - |sheets[i]| < 2
  {
    HasSectionOnlyFrom(sheets, name, 0)
  }

  /** The guard flags exactly the names that equal a sheet name or extend one
      by a single character. */
  lemma SectionOnlyShape(sheets: seq<string>, name: string)
    ensures HasSectionOnly(sheets, name)
            <==> exists i :: 0 <= i < |sheets| && (name == sheets[i] || (|name| > 0 && name[..|name| - 1] == sheets[i]))
  {
  }

  /** What a scanner keeps and what it reports after applying the guard. */
  datatype Screened = Screened(kept: seq<Sighting>, rejected: seq<Sighting>)

  /** The guard as the scanners apply it to each candidate sighting: a flagged
      ID is reported with its location, any other sighting is kept. */
  function Screen(sheets: seq<string>, found: seq<Sighting>): (r: Screened)
    ensures forall s :: s in r.kept ==> !HasSectionOnly(sheets, s.textId)
    ensures forall s :: s in r.rejected ==> HasSectionOnly(sheets, s.textId)
    ensures multiset(r.kept) + multiset(r.rejected) == multiset(found)
    ensures (forall s :: s in found ==> !HasSectionOnly(sheets, s.textId)) ==> r.kept == found
    decreases |found|
  {
    if |found| == 0 then Screened([], [])
    else
      var rest := Screen(sheets, found[1..]);
      assert found == [found[0]] + found[1..];
      if HasSectionOnly(sheets, found[0].textId) then Screened(rest.kept, [found[0]] + rest.rejected)
      else Screened([found[0]] + rest.kept, rest.rejected)
  }

  /** An ID the guard flags never enters an index built from screened
      sightings, and no sighting of an unflagged ID is lost. */
  lemma ScreenedIds(sheets: seq<string>, found: seq<Sighting>)
    ensures forall id :: id in IdsOf(Screen(sheets, found).kept) <==>
                         id in IdsOf(found) && !HasSectionOnly(sheets, id)
  {
    var r := Screen(sheets, found);
    forall id ensures id in IdsOf(r.kept) <==> id in IdsOf(found) && !HasSectionOnly(sheets, id) {
      if id in IdsOf(r.kept) {
        var i :| 0 <= i < |r.kept| && r.kept[i].textId == id;
        assert r.kept[i] in multiset(found);
      }
      if id in IdsOf(found) && !HasSectionOnly(sheets, id) {
        var i :| 0 <= i < |found| && found[i].textId == id;
        assert found[i] in multiset(r.kept) + multiset(r.rejected);
        assert found[i] !in r.rejected;
        var j :| 0 <= j < |r.kept| && r.kept[j] == found[i];
      }
    }
  }

  /** A sheet named "Tutorial" makes "Tutorial_" a section-only ID but not
      "Tutorial_1" or "Intro". */
  lemma GuardScenario()
    ensures HasSectionOnly(["Tutorial"], "Tutorial_")
    ensures !HasSectionOnly(["Tutorial"], "Tutorial_1")
    ensures !HasSectionOnly(["Tutorial"], "Intro")
  {
  }

  /** A flagged ID is never reported as undefined when the index is built from
      screened sightings: it is not a used ID at all. */
  lemma FlaggedNeverUndefined(sheets: seq<string>, found: seq<Sighting>, catalog: set<string>, id: string)
    requires HasSectionOnly(sheets, id)
    ensures id !in IdsOf(Screen(sheets, found).kept)
    ensures id !in Classify(catalog, IdsOf(Screen(sheets, found).kept)).undefined
  {
  }
}
