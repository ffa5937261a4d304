# LingoMan key reconciliation, modelled in Dafny

LingoMan audits the localisation workbook of a Unity game. The workbook's
sheets define text IDs (`<sheet>_<id>`, the catalog); scanners collect the
IDs the game actually uses, each with the places it was seen. The tool then
reports the IDs used but never defined ("undefined") and the IDs defined but
never used ("unused").

This project models the part of `main.py` that does the reconciling:

- **The location index** (`TextStats`, `create_stats`), module
  `TextStatsIndex`. It maps each text ID to the ordered list of its
  locations. Appending keeps every other ID's list unchanged, and lookups of
  recorded IDs never return `None`.
- **The three passes of `on_button_find_error`**, module `Reconcile`.
  - Pass 0 takes the exact set differences.
  - Pass 1 resolves an undefined ID that occurs as a substring of some
    catalog entry, and strikes every such entry from the unused set.
  - Pass 2 does the same on lower-cased forms, for the IDs pass 1 left.
  - Each pass is a method that walks the sets as the source does
    (`RunPass`, `MatchingEntries`). It is proved equal to a declarative
    statement (`PassSpec`), so the result does not depend on the order in
    which the sets are walked.
  - The whole audit (`FindErrors`) also returns the diagnostics the source
    prints: which entries each pass-1 ID matched, the near misses of pass 2
    with their locations, and the locations of every ID left undefined.
- **The section-only guard** (`has_section_only`), module `SectionGuard`.
  It flags an ID that is a sheet name, or a sheet name plus one character.
  `Screen` is the keep-or-report step the prefab and game-data scanners
  apply to each sighting.
- **String primitives**, module `Text`. `Find` models `str.find` (lowest
  index, or -1), `IsPrefix` models `str.startswith` and `Lower` models
  `str.lower`.

Pass 1 compares each undefined ID with the whole catalog (main.py:276). That
includes entries that are already in use, not only the entries still unused.
Striking an entry that is not in the unused set changes nothing. But an ID
that occurs inside an already-used entry counts as resolved. The model
follows the code; `Reconcile.WholeCatalogScenario` shows the effect.

Pass 2 only looks at the IDs pass 1 left undefined (main.py:292).
`Reconcile.ResolvedNotReconsideredScenario` shows the consequence: an entry
that only the case-folded rule would match, against an ID pass 1 already
resolved, stays unused.

## Model

| member | source | states |
|---|---|---|
| Text.Find | main.py:277 | `s.find(sub)` is -1 exactly when `sub` is not a substring of `s`; otherwise `sub` occurs at the result and at no lower index |
| Text.Contains | main.py:277 | `full.find(each) > -1` holds exactly when `each` is a contiguous substring of `full` |
| Text.Lower | main.py:289 | lower-casing a string keeps its length |
| Text.LowerAt | main.py:293 | each character of a lowered string is the lowered character at the same position |
| Text.LowerSubstring | main.py:295-297 | a substring stays a substring after both sides are lower-cased, so the case-folded test accepts everything the exact test accepts |
| Text.LowerSubstringNotConverse | main.py:295-297 | the case-folded test accepts pairs the exact test rejects ("a" against "A") |
| TextStatsIndex.Empty | main.py:19-20 | a new index records no ID |
| TextStatsIndex.AddEntry | main.py:22-30 | `add_entry` appends the location to the ID's list, or creates the one-element list for a new ID; `text_ids` grows by exactly that ID, so it is always the set of IDs added so far, and every other ID's list is unchanged |
| TextStatsIndex.Locations | main.py:32-35 | `locations(id)` is `None` exactly when the ID was never added; a recorded list is never empty |
| TextStatsIndex.Contains | main.py:37-38 | `id in stats` agrees with `locations(id)` not being `None` |
| TextStatsIndex.CreateStats | main.py:466-471 | the index knows exactly the IDs of the input sightings, and each ID's list has one location per sighting of it, in input order |
| TextStatsIndex.LocationsOfNonEmpty | main.py:466-471 | an ID has a non-empty location list exactly when some input sighting names it |
| SectionGuard.HasSectionOnly | main.py:382-386 | the guard holds exactly when some sheet name is a prefix of the ID and the ID is less than two characters longer |
| SectionGuard.SectionOnlyShape | main.py:384 | equivalently, the ID equals a sheet name or is a sheet name with one character appended |
| SectionGuard.Screen | main.py:405-408 | the scanners keep exactly the unflagged sightings and report the flagged ones; nothing is lost or invented; with no flagged ID the input is kept unchanged |
| SectionGuard.ScreenedIds | main.py:435-438 | the IDs kept after screening are exactly the sighted IDs the guard does not flag |
| SectionGuard.FlaggedNeverUndefined | main.py:435-438 | a flagged ID never enters an index built from screened sightings, so it is never reported as undefined |
| SectionGuard.GuardScenario | main.py:382-386 | with a sheet "Tutorial", "Tutorial_" is flagged while "Tutorial_1" and "Intro" are not |
| Reconcile.MatchingEntries | main.py:275-278 | the inner scan collects exactly the catalog entries whose form contains the ID's form |
| Reconcile.RunPass | main.py:274-286 | one pass resolves exactly the undefined IDs that some catalog entry contains, strikes exactly the catalog entries that contain some undefined ID, and records for each resolved ID the entries it matched, whatever order the sets are walked in |
| Reconcile.LocationsReport | main.py:311-315 | looking up the locations of IDs drawn from the index never yields `None`, and every list it yields is non-empty |
| Reconcile.FindErrors | main.py:266-315 | the audit's undefined and unused sets are the three-pass classification of the index's IDs against the catalog, a subset of the exact differences; its pass-2 near misses and undefined report carry each ID's recorded locations |
| Reconcile.ExactMatchFolds | main.py:292-297 | anything pass 1 would resolve also satisfies the pass-2 rule |
| Reconcile.ExactKeysNeverReported | main.py:267-269 | an ID both defined and used is in neither final set |
| Reconcile.ClassifyShrinks | main.py:285-286 | each pass only shrinks the sets: final undefined is within used minus catalog, final unused within catalog minus used |
| Reconcile.UndefinedPartition | main.py:271-308 | used minus catalog splits into the final undefined IDs, the IDs pass 1 resolved and the IDs pass 2 resolved, pairwise disjoint |
| Reconcile.UnusedPartition | main.py:307-308 | the final unused set is catalog minus used, less the entries pass 1 struck and the entries pass 2 struck |
| Reconcile.UndefinedCharacterized | main.py:266-308 | an ID ends up undefined exactly when it is used and no catalog entry contains it once both are lower-cased |
| Reconcile.UnusedUnmatched | main.py:274-297 | an entry left unused is defined, not used, contains no undefined ID of pass 0, and contains no ID pass 2 looked at after lower-casing |
| Reconcile.CaseDriftScenario | main.py:288-308 | "ok" used against "OK" defined is reported by passes 0 and 1 on both sides and cleared by pass 2 |
| Reconcile.ResolvedNotReconsideredScenario | main.py:292 | with "ab" used and "xab", "AB" defined, pass 1 resolves "ab" through "xab" and "AB" stays unused |
| Reconcile.WholeCatalogScenario | main.py:276-280 | with "ab" and "xab" used and only "xab" defined, pass 1 resolves "ab" through the already-used entry "xab", leaving both final sets empty |

## Left out

- Text.Lower: folds only the ASCII capitals A-Z. Python's `str.lower` folds every Unicode cased letter, and it can change a string's length (for example U+0130). It is also context-dependent: a capital sigma at the end of a word becomes final sigma, so `"ΑΣ".lower()` is `"ας"` while `"Σ".lower()` is `"σ"`. Under that rule "Σ" occurs in "ΑΣ" but "σ" does not occur in "ας", so `Text.LowerSubstring` and `Reconcile.ExactMatchFolds` would not hold for the real `str.lower`. The model assumes a per-character, length-preserving map.
- TextStatsIndex.CreateStats: takes the sightings as a sequence. On the create-new path (main.py:218-224) the source passes a Python set of pairs, so duplicate pairs collapse and the order of insertion is Python's set order. On the open-old path (main.py:238-245) it passes the list read from the database.
- SectionGuard.FlaggedNeverUndefined: covers the prefab and game-data scanners only. `scan_solution` (main.py:441-456) adds what the external symbol finder returns without applying the guard.
- Reconcile.FindErrors: the "load data first" error box (main.py:262-264) is UI. The caller is assumed to have an index. Writing the unused set to the database (main.py:321) is I/O and not modelled.
- The SQLite store `TextDataBase` (main.py:41-183): database I/O.
- The Tk window, message boxes and console `print` calls: UI and output. The printed diagnostics are returned as maps instead.
- Building the catalog in `read_all_strings_from_xlsx` (main.py:249-259): it reads the workbook through pandas. The catalog is a parameter.
- The scanners `scan_prefab`, `scan_game_data` and `scan_solution`: they walk files, read spreadsheets and run an external process. Their regular-expression extraction is not modelled. Only the guard step they apply is modelled.
- `try_read_text` (main.py:356-380): codec-dependent decoding.
- `on_button_double_check` (main.py:325-353): a regular-expression search over files.
