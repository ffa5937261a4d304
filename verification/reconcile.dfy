/**
 The reconciliation of the catalog (IDs defined in the localisation workbook)
 against the IDs the scanners saw in use. Pass 0 takes the two exact set
 differences; pass 1 resolves an undefined ID that occurs inside some catalog
 entry and strikes every such entry from the unused set; pass 2 repeats
 pass 1 on lower-cased forms for what pass 1 left undefined. Every pass
 builds new sets and subtracts them afterwards.
 */
module Reconcile {
  import opened Optional
  import opened Text
  import opened TextStatsIndex

  /** How a pass compares an undefined ID with a catalog entry. */
  datatype Mode = Exact | CaseFolded

  /** The form of an ID that a pass compares. */
  function Form(s: string, mode: Mode): string {
    match mode
    case Exact => s
    case CaseFolded => Lower(s)
  }

  /** Entry `entry` is a candidate for ID `id` in this mode: the ID occurs in
      the entry as a contiguous substring. */
  ghost predicate Matches(id: string, entry: string, mode: Mode) {
    match mode
    case Exact => IsSubstring(id, entry)
    case CaseFolded => IsSubstring(Lower(id), Lower(entry))
  }

  /** The two sets a pass works on. */
  datatype Verdict = Verdict(undefined: set<string>, unused: set<string>)

  /** What one fuzzy pass produces: the residual sets, and for every ID it
      resolved the catalog entries it matched. */
  datatype PassResult = PassResult(rest: Verdict, matched: map<string, set<string>>, resolvedEntries: set<string>)

  /** The catalog entries an ID matches. */
  ghost function Candidates(id: string, catalog: set<string>, mode: Mode): set<string> {
    set d | d in catalog && Matches(id, d, mode)
  }

  /** Some catalog entry matches `id`. */
  ghost predicate Resolvable(id: string, catalog: set<string>, mode: Mode) {
    exists d :: d in catalog && Matches(id, d, mode)
  }

  /** Some ID of `ids` matches `entry`. */
  ghost predicate Referenced(entry: string, ids: set<string>, mode: Mode) {
    exists k :: k in ids && Matches(k, entry, mode)
  }

  /** Declarative statement of one fuzzy pass. */
  ghost function PassSpec(v: Verdict, catalog: set<string>, mode: Mode): PassResult {
    var resolved := set k | k in v.undefined && Resolvable(k, catalog, mode);
    var entries := set d | d in catalog && Referenced(d, v.undefined, mode);
    PassResult(Verdict(v.undefined - resolved, v.unused - entries),
               map k | k in resolved :: Candidates(k, catalog, mode),
               entries)
  }

  /** The inner scan of a pass: every catalog entry whose form contains the
      ID's form. */
  method MatchingEntries(id: string, catalog: set<string>, mode: Mode) returns (possible: set<string>)
    ensures possible == Candidates(id, catalog, mode)
  {
    possible := {};
    var probe := Form(id, mode);
    var todo := catalog;
    while todo != {}
      invariant todo <= catalog
      invariant possible == set d | d in catalog - todo && Matches(id, d, mode)
      decreases todo
    {
      var full :| full in todo;
      if Text.Contains(Form(full, mode), probe) {
        possible := possible + {full};
      }
      todo := todo - {full};
    }
  }

  /** One fuzzy pass as the source runs it: for each undefined ID, collect the
      matching catalog entries; an ID with at least one is resolved and its
      entries are struck; the residuals are computed once the scan is over.
      Whatever order the sets are walked in, the result is the one PassSpec
      describes. */
  method RunPass(v: Verdict, catalog: set<string>, mode: Mode) returns (r: PassResult)
    ensures r == PassSpec(v, catalog, mode)
  {
    var matched: map<string, set<string>> := map[];
    var entries: set<string> := {};
    var todo := v.undefined;
    while todo != {}
      invariant todo <= v.undefined
      invariant forall k :: k in matched <==> k in v.undefined - todo && Resolvable(k, catalog, mode)
      invariant forall k :: k in matched ==> matched[k] == Candidates(k, catalog, mode)
      invariant forall d :: d in entries <==> d in catalog && Referenced(d, v.undefined - todo, mode)
      decreases todo
    {
      var each :| each in todo;
      var possible := MatchingEntries(each, catalog, mode);
      ReferencedByOneMore(v.undefined - todo, each, mode);
      if possible != {} {
        var d :| d in possible;
        assert d in catalog && Matches(each, d, mode);
        matched := matched[each := possible];
        entries := entries + possible;
      } else {
        assert forall d :: d in catalog ==> d !in Candidates(each, catalog, mode);
      }
      assert v.undefined - (todo - {each}) == (v.undefined - todo) + {each};
      todo := todo - {each};
    }
    assert v.undefined - todo == v.undefined;
    r := PassResult(Verdict(v.undefined - matched.Keys, v.unused - entries), matched, entries);
    PassSpecCharacterized(v, catalog, mode, r);
  }

  /** A result whose parts have the membership PassSpec describes is PassSpec. */
  lemma PassSpecCharacterized(v: Verdict, catalog: set<string>, mode: Mode, r: PassResult)
    requires forall k :: k in r.matched <==> k in v.undefined && Resolvable(k, catalog, mode)
    requires forall k :: k in r.matched ==> r.matched[k] == Candidates(k, catalog, mode)
    requires forall d :: d in r.resolvedEntries <==> d in catalog && Referenced(d, v.undefined, mode)
    requires r.rest == Verdict(v.undefined - r.matched.Keys, v.unused - r.resolvedEntries)
    ensures r == PassSpec(v, catalog, mode)
  {
    MatchedKeys(v, catalog, mode, r.matched);
    MatchedValues(v, catalog, mode, r.matched);
    EntriesSet(v, catalog, mode, r.resolvedEntries);
  }

  /** The resolved IDs are the keys PassSpec's map has. */
  lemma MatchedKeys(v: Verdict, catalog: set<string>, mode: Mode, m: map<string, set<string>>)
    requires forall k :: k in m <==> k in v.undefined && Resolvable(k, catalog, mode)
    ensures m.Keys == PassSpec(v, catalog, mode).matched.Keys
  {
  }

  /** The per-ID candidate sets agree with PassSpec's map. */
  lemma MatchedValues(v: Verdict, catalog: set<string>, mode: Mode, m: map<string, set<string>>)
    requires forall k :: k in m <==> k in v.undefined && Resolvable(k, catalog, mode)
    requires forall k :: k in m ==> m[k] == Candidates(k, catalog, mode)
    ensures m == PassSpec(v, catalog, mode).matched
  {
  }

  /** The struck entries are the ones PassSpec strikes. */
  lemma EntriesSet(v: Verdict, catalog: set<string>, mode: Mode, entries: set<string>)
    requires forall d :: d in entries <==> d in catalog && Referenced(d, v.undefined, mode)
    ensures entries == PassSpec(v, catalog, mode).resolvedEntries
  {
  }

  /** Adding one ID to the scanned ones adds exactly the entries it matches. */
  lemma ReferencedByOneMore(ids: set<string>, id: string, mode: Mode)
    ensures forall d :: Referenced(d, ids + {id}, mode) <==> Referenced(d, ids, mode) || Matches(id, d, mode)
  {
  }

  /** Pass 0: the exact set differences. */
  ghost function Pass0(catalog: set<string>, used: set<string>): Verdict {
    Verdict(used - catalog, catalog - used)
  }

  /** Pass 1: substring matches against the whole catalog. */
  ghost function Pass1(catalog: set<string>, used: set<string>): PassResult {
    PassSpec(Pass0(catalog, used), catalog, Exact)
  }

  /** Pass 2: case-folded substring matches for what pass 1 left. */
  ghost function Pass2(catalog: set<string>, used: set<string>): PassResult {
    PassSpec(Pass1(catalog, used).rest, catalog, CaseFolded)
  }

  /** The final undefined and unused sets. */
  ghost function Classify(catalog: set<string>, used: set<string>): Verdict {
    Pass2(catalog, used).rest
  }

  /** A pass-2 diagnostic: where the near-miss ID was seen and what it matched. */
  datatype NearMiss = NearMiss(locations: seq<string>, candidates: set<string>)

  /** Everything one audit produces. */
  datatype Audit = Audit(
    verdict: Verdict,
    composed: map<string, set<string>>,
    nearMisses: map<string, NearMiss>,
    undefinedReport: map<string, seq<string>>)

  /** The location list of each of `ids`. Every lookup succeeds because each ID
      was recorded in the index. */
  function LocationsReport(stats: TextStats, ids: set<string>): (report: map<string, seq<string>>)
    requires ids <= TextIds(stats)
    ensures report.Keys == ids
    ensures forall k :: k in report ==> Locations(stats, k) == Some(report[k])
    ensures Valid(stats) ==> forall k :: k in report ==> |report[k]| > 0
  {
    map k | k in ids :: Locations(stats, k).value
  }

  /** `on_button_find_error` without its console output: the three passes over
      the catalog and the IDs recorded in `stats`, with the diagnostics the
      source prints (pass-1 matches, pass-2 near misses with locations, and
      the locations of every ID still undefined). */
  method FindErrors(catalog: set<string>, stats: TextStats) returns (audit: Audit)
    ensures audit.verdict == Classify(catalog, TextIds(stats))
    ensures audit.verdict.undefined <= TextIds(stats) - catalog
    ensures audit.verdict.unused <= catalog - TextIds(stats)
    ensures audit.composed == Pass1(catalog, TextIds(stats)).matched
    ensures audit.nearMisses.Keys == Pass2(catalog, TextIds(stats)).matched.Keys
    ensures forall k :: k in audit.nearMisses ==>
              Locations(stats, k) == Some(audit.nearMisses[k].locations)
              && audit.nearMisses[k].candidates == Candidates(k, catalog, CaseFolded)
    ensures audit.undefinedReport.Keys == audit.verdict.undefined
    ensures forall k :: k in audit.undefinedReport ==> Locations(stats, k) == Some(audit.undefinedReport[k])
    ensures Valid(stats) ==> forall k :: k in audit.undefinedReport ==> |audit.undefinedReport[k]| > 0
  {
    var used := TextIds(stats);
    var first := Verdict(used - catalog, catalog - used);
    var p1 := RunPass(first, catalog, Exact);
    var p2 := RunPass(p1.rest, catalog, CaseFolded);
    var missLocations := LocationsReport(stats, p2.matched.Keys);
    var nearMisses := map k | k in p2.matched :: NearMiss(missLocations[k], p2.matched[k]);
    audit := Audit(p2.rest, p1.matched, nearMisses, LocationsReport(stats, p2.rest.undefined));
  }

  /** Pass-1 rule implies pass-2 rule: an ID that occurs in an entry still
      occurs in it once both are lower-cased. */
  lemma ExactMatchFolds(id: string, entry: string)
    requires Matches(id, entry, Exact)
    ensures Matches(id, entry, CaseFolded)
  {
    LowerSubstring(id, entry);
  }

  /** An ID that is both defined and used is in neither final set. */
  lemma ExactKeysNeverReported(catalog: set<string>, used: set<string>, id: string)
    requires id in catalog && id in used
    ensures id !in Classify(catalog, used).undefined
    ensures id !in Classify(catalog, used).unused
  {
  }

  /** The passes only shrink what pass 0 found. */
  lemma ClassifyShrinks(catalog: set<string>, used: set<string>)
    ensures Classify(catalog, used).undefined <= Pass1(catalog, used).rest.undefined <= used - catalog
    ensures Classify(catalog, used).unused <= Pass1(catalog, used).rest.unused <= catalog - used
  {
  }

  /** Every ID of pass 0's undefined set ends up in exactly one of: the final
      undefined set, the IDs pass 1 resolved, the IDs pass 2 resolved. */
  lemma UndefinedPartition(catalog: set<string>, used: set<string>)
    ensures used - catalog == Classify(catalog, used).undefined
                              + Pass1(catalog, used).matched.Keys
                              + Pass2(catalog, used).matched.Keys
    ensures Classify(catalog, used).undefined !! Pass1(catalog, used).matched.Keys
    ensures Classify(catalog, used).undefined !! Pass2(catalog, used).matched.Keys
    ensures Pass1(catalog, used).matched.Keys !! Pass2(catalog, used).matched.Keys
  {
  }

  /** Every entry of pass 0's unused set ends up in the final unused set
      unless one of the passes struck it. */
  lemma UnusedPartition(catalog: set<string>, used: set<string>)
    ensures Classify(catalog, used).unused
            == (catalog - used) - Pass1(catalog, used).resolvedEntries - Pass2(catalog, used).resolvedEntries
  {
  }

  /** The final undefined set, without reference to the passes: a used ID no
      catalog entry contains, even after lower-casing both. Being defined, or
      matching exactly, are both special cases of the case-folded rule. */
  lemma UndefinedCharacterized(catalog: set<string>, used: set<string>, id: string)
    ensures id in Classify(catalog, used).undefined
            <==> id in used && forall d :: d in catalog ==> !IsSubstring(Lower(id), Lower(d))
  {
    var p1 := Pass1(catalog, used);
    if id in Classify(catalog, used).undefined {
      assert id in used && id !in catalog;
      assert !Resolvable(id, catalog, CaseFolded);
    } else if id in used {
      if id in catalog {
        SubstringReflexive(Lower(id));
      } else if id in p1.matched {
        var d :| d in catalog && Matches(id, d, Exact);
        ExactMatchFolds(id, d);
      } else {
        assert id in p1.rest.undefined;
        var d :| d in catalog && Matches(id, d, CaseFolded);
      }
    }
  }

  /** An entry left unused contains no ID pass 1 looked at, and no ID pass 2
      looked at once both are lower-cased. */
  lemma UnusedUnmatched(catalog: set<string>, used: set<string>, entry: string)
    requires entry in Classify(catalog, used).unused
    ensures entry in catalog && entry !in used
    ensures forall id :: id in used - catalog ==> !IsSubstring(id, entry)
    ensures forall id :: id in Pass1(catalog, used).rest.undefined ==> !IsSubstring(Lower(id), Lower(entry))
  {
  }

  /** Case drift: "ok" used against "OK" defined is reported by pass 0 on both
      sides and cleared by pass 2. */
  lemma CaseDriftScenario()
    ensures Pass0({"OK"}, {"ok"}) == Verdict({"ok"}, {"OK"})
    ensures Pass1({"OK"}, {"ok"}).rest == Verdict({"ok"}, {"OK"})
    ensures Classify({"OK"}, {"ok"}) == Verdict({}, {})
  {
    assert !OccursAt("ok", "OK", 0);
    assert !Resolvable("ok", {"OK"}, Exact);
    assert !Referenced("OK", {"ok"}, Exact);
    assert Lower("OK") == "ok";
    assert Lower("ok") == "ok";
    SubstringReflexive("ok");
    assert Matches("ok", "OK", CaseFolded);
  }

  /** An ID pass 1 resolves is not looked at again by pass 2: "ab" occurs in
      "xab", so the entry "AB", which only the case-folded rule would match,
      stays unused. */
  lemma ResolvedNotReconsideredScenario()
    ensures Classify({"xab", "AB"}, {"ab"}) == Verdict({}, {"AB"})
  {
    var catalog: set<string> := {"xab", "AB"};
    assert OccursAt("ab", "xab", 1);
    assert Matches("ab", "xab", Exact);
    assert "AB"[0..2][0] == 'A' != "ab"[0];
    assert !Matches("ab", "AB", Exact);
    assert Pass1(catalog, {"ab"}).rest == Verdict({}, {"AB"});
  }

  /** Pass 1 scans the whole catalog, used entries included: "ab" is resolved
      through "xab" although "xab" is itself used and so was never unused. */
  lemma WholeCatalogScenario()
    ensures Pass0({"xab"}, {"ab", "xab"}) == Verdict({"ab"}, {})
    ensures Classify({"xab"}, {"ab", "xab"}) == Verdict({}, {})
  {
    assert OccursAt("ab", "xab", 1);
    assert Matches("ab", "xab", Exact);
  }
}
