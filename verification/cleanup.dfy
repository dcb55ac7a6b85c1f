/** cleanup-reports.js: delete the canonical reports that hold no tests and, of the reports
    sharing one date-time key, all but the largest. */
module Cleanup {
  import opened Options
  import opened Text
  import opened Json
  import opened Cucumber
  import opened Storage

  /** The filter of getAllReports: a canonical report file name. */
  predicate IsReportName(f: string) {
    StartsWith(f, "gct-") && EndsWith(f, ".json")
  }

  /** One element of the list getAllReports builds (its `path` is the directory plus the name). */
  datatype ReportFile = ReportFile(filename: string, size: nat)

  function Filenames(rs: seq<ReportFile>): (names: seq<string>)
    ensures |names| == |rs| && forall i :: 0 <= i < |rs| ==> names[i] == rs[i].filename
  {
    if rs == [] then [] else [rs[0].filename] + Filenames(rs[1..])
  }

  /** getAllReports: the canonical names of the listing, in listing order, with their sizes. */
  function AllReports(files: Files, listing: seq<string>): (rs: seq<ReportFile>)
    requires forall n :: n in listing ==> n in files
    ensures |rs| <= |listing|
    ensures forall r :: r in rs ==> r.filename in listing && IsReportName(r.filename) && r.size == files[r.filename].size
    ensures forall n :: n in listing && IsReportName(n) ==> ReportFile(n, files[n].size) in rs
    ensures Distinct(listing) ==> forall i, j :: 0 <= i < j < |rs| ==> rs[i].filename != rs[j].filename
  {
    if listing == [] then []
    else
      var rest := AllReports(files, listing[1..]);
      if IsReportName(listing[0]) then
        var rs := [ReportFile(listing[0], files[listing[0]].size)] + rest;
        assert forall i :: 0 < i < |rs| ==> rs[i] == rest[i - 1];
        rs
      else rest
  }

  /** getAllReports keeps the listing's order. */
  lemma {:induction false} AllReportsInOrder(files: Files, listing: seq<string>)
    requires forall n :: n in listing ==> n in files
    decreases |listing|
    ensures IsSubseqOf(Filenames(AllReports(files, listing)), listing)
  {
    if listing != [] {
      AllReportsInOrder(files, listing[1..]);
      var rest := AllReports(files, listing[1..]);
      if IsReportName(listing[0]) {
        var rs := AllReports(files, listing);
        assert rs == [ReportFile(listing[0], files[listing[0]].size)] + rest;
        assert Filenames(rs)[1..] == Filenames(rest);
      } else if rest != [] {
        assert rest[0] in rest;
      }
    }
  }

  // ---------------------------------------------------------------------------------------
  // isEmptyReport

  function ScenarioTotal(features: seq<Json>): nat {
    if features == [] then 0
    else ScenarioTotal(features[..|features| - 1]) + |ScenariosOf(features[|features| - 1])|
  }

  function StepTotalIn(scenarios: seq<Json>): nat {
    if scenarios == [] then 0
    else StepTotalIn(scenarios[..|scenarios| - 1]) + |StepsOf(scenarios[|scenarios| - 1])|
  }

  function StepTotal(features: seq<Json>): nat {
    if features == [] then 0
    else StepTotal(features[..|features| - 1]) + StepTotalIn(ScenariosOf(features[|features| - 1]))
  }

  /** Counting this feature throws a TypeError: it is null, or one of its scenarios is
      (`feature.elements` or `scenario.steps` read on null). */
  predicate FeatureThrows(feature: Json) {
    feature.JNull? || exists j :: 0 <= j < |ScenariosOf(feature)| && ScenariosOf(feature)[j].JNull?
  }

  predicate CountingThrows(features: seq<Json>) {
    exists i :: 0 <= i < |features| && FeatureThrows(features[i])
  }

  /** The verdict of isEmptyReport on a file's content: anything but a non-empty array is
      empty, an exception while counting is caught as empty, and otherwise the report is
      empty when it has no scenario or no step. */
  predicate EmptyContent(c: Content) {
    match c
    case Parsed(JArr(features)) =>
      |features| == 0 || CountingThrows(features) || ScenarioTotal(features) == 0 || StepTotal(features) == 0
    case _ => true
  }

  /** The inner loop of isEmptyReport: the steps of a feature's scenarios, or a TypeError
      (`nullFound`) when one of them is null. */
  method CountSteps(scenarios: seq<Json>) returns (steps: nat, nullFound: bool)
    ensures nullFound <==> exists j :: 0 <= j < |scenarios| && scenarios[j].JNull?
    ensures !nullFound ==> steps == StepTotalIn(scenarios)
  {
    steps := 0;
    var j := 0;
    while j < |scenarios|
      invariant 0 <= j <= |scenarios|
      invariant steps == StepTotalIn(scenarios[..j])
      invariant forall k :: 0 <= k < j ==> !scenarios[k].JNull?
    {
      var scenario := scenarios[j];
      if scenario.JNull? {
        return steps, true;
      }
      steps := steps + |StepsOf(scenario)|;
      assert scenarios[..j + 1][..j] == scenarios[..j];
      j := j + 1;
    }
    assert scenarios[..j] == scenarios;
    return steps, false;
  }

  /** The outer loop of isEmptyReport: the scenarios and steps of all features, or a
      TypeError (`thrown`) when a feature or one of its scenarios is null. */
  method CountFeatures(features: seq<Json>) returns (scenarios: nat, steps: nat, thrown: bool)
    ensures thrown == CountingThrows(features)
    ensures !thrown ==> scenarios == ScenarioTotal(features) && steps == StepTotal(features)
  {
    scenarios, steps := 0, 0;
    var i := 0;
    while i < |features|
      invariant 0 <= i <= |features|
      invariant scenarios == ScenarioTotal(features[..i])
      invariant steps == StepTotal(features[..i])
      invariant forall k :: 0 <= k < i ==> !FeatureThrows(features[k])
    {
      var feature := features[i];
      if feature.JNull? {
        assert FeatureThrows(features[i]);
        return scenarios, steps, true;
      }
      var elements := ScenariosOf(feature);
      scenarios := scenarios + |elements|;
      var featureSteps, nullFound := CountSteps(elements);
      if nullFound {
        assert FeatureThrows(features[i]);
        return scenarios, steps, true;
      }
      steps := steps + featureSteps;
      assert features[..i + 1][..i] == features[..i];
      i := i + 1;
    }
    assert features[..i] == features;
    return scenarios, steps, false;
  }

  /** isEmptyReport: a read or parse failure and a TypeError while counting are caught and
      count as empty. */
  method IsEmptyReport(c: Content) returns (empty: bool)
    ensures empty == EmptyContent(c)
  {
    if !c.Parsed? || !c.value.JArr? {
      return true;
    }
    var features := c.value.items;
    if |features| == 0 {
      return true;
    }
    var totalScenarios, totalSteps, thrown := CountFeatures(features);
    if thrown {
      return true;
    }
    return totalScenarios == 0 || totalSteps == 0;
  }

  /** Of isEmptyReport's three tests on an array, only the step test decides: the length test
      and the scenario test are subsumed by it. */
  lemma {:induction false} EmptyIffNoSteps(features: seq<Json>)
    ensures EmptyContent(Parsed(JArr(features))) <==> CountingThrows(features) || StepTotal(features) == 0
  {
    StepsNeedScenarios(features);
  }

  /** A step is always inside a scenario, so the step test subsumes the scenario test. */
  lemma {:induction false} StepsNeedScenarios(features: seq<Json>)
    ensures StepTotal(features) > 0 ==> ScenarioTotal(features) > 0
  {
    if features != [] {
      StepsNeedScenarios(features[..|features| - 1]);
      StepsInNoScenarios(ScenariosOf(features[|features| - 1]));
    }
  }

  lemma {:induction false} StepsInNoScenarios(scenarios: seq<Json>)
    ensures scenarios == [] ==> StepTotalIn(scenarios) == 0
  {
  }

  /** Two reports with the same outline: the same features (null or not), the same number
      of scenarios in each (null or not) and the same number of steps in each scenario.
      The steps themselves, and so their statuses, may differ arbitrarily. */
  predicate SameOutline(a: seq<Json>, b: seq<Json>) {
    && |a| == |b|
    && (forall i :: 0 <= i < |a| ==> a[i].JNull? == b[i].JNull? && |ScenariosOf(a[i])| == |ScenariosOf(b[i])|)
    && (forall i, j :: 0 <= i < |a| && 0 <= j < |ScenariosOf(a[i])| ==>
          j < |ScenariosOf(b[i])| &&
          ScenariosOf(a[i])[j].JNull? == ScenariosOf(b[i])[j].JNull? &&
          |StepsOf(ScenariosOf(a[i])[j])| == |StepsOf(ScenariosOf(b[i])[j])|)
  }

  lemma {:induction false} StepTotalInOutline(a: seq<Json>, b: seq<Json>)
    requires |a| == |b|
    requires forall j :: 0 <= j < |a| ==> |StepsOf(a[j])| == |StepsOf(b[j])|
    ensures StepTotalIn(a) == StepTotalIn(b)
  {
    if a != [] {
      StepTotalInOutline(a[..|a| - 1], b[..|b| - 1]);
    }
  }

  lemma {:induction false} TotalsOutline(a: seq<Json>, b: seq<Json>)
    requires SameOutline(a, b)
    ensures ScenarioTotal(a) == ScenarioTotal(b) && StepTotal(a) == StepTotal(b)
  {
    if a != [] {
      var n := |a| - 1;
      assert SameOutline(a[..n], b[..n]);
      TotalsOutline(a[..n], b[..n]);
      StepTotalInOutline(ScenariosOf(a[n]), ScenariosOf(b[n]));
    }
  }

  /** Step statuses (indeed all step contents) never influence isEmptyReport. */
  lemma EmptinessIgnoresSteps(a: seq<Json>, b: seq<Json>)
    requires SameOutline(a, b)
    ensures EmptyContent(Parsed(JArr(a))) == EmptyContent(Parsed(JArr(b)))
  {
    TotalsOutline(a, b);
    if CountingThrows(a) {
      var i :| 0 <= i < |a| && FeatureThrows(a[i]);
      if !a[i].JNull? {
        var j :| 0 <= j < |ScenariosOf(a[i])| && ScenariosOf(a[i])[j].JNull?;
        assert ScenariosOf(b[i])[j].JNull?;
      }
      assert FeatureThrows(b[i]);
    }
    if CountingThrows(b) {
      var i :| 0 <= i < |b| && FeatureThrows(b[i]);
      if !b[i].JNull? {
        var j :| 0 <= j < |ScenariosOf(b[i])| && ScenariosOf(b[i])[j].JNull?;
        assert ScenariosOf(a[i])[j].JNull?;
      }
      assert FeatureThrows(a[i]);
    }
  }

  // ---------------------------------------------------------------------------------------
  // findDuplicates

  /** `/gct-(\d{8})-(\d{6})\.json/` on a 24-character window. */
  predicate IsKeyWindow(w: string) {
    && |w| == 24
    && w[..4] == "gct-"
    && AllDigits(w[4..12])
    && w[12] == '-'
    && AllDigits(w[13..19])
    && w[19..] == ".json"
  }

  /** The date-time key findDuplicates reads from a file name: the two digit groups of the
      first match, joined by '-'; None when the name does not match (the pattern is not
      anchored, so the match may sit anywhere in the name). */
  function DuplicateKey(filename: string): (k: Option<string>)
    ensures k.Some? ==> |k.value| == 15 && AllDigits(k.value[..8]) && k.value[8] == '-' && AllDigits(k.value[9..])
  {
    FirstWindowIsLeftmost(filename, 24, IsKeyWindow, 0);
    match FirstWindow(filename, 24, IsKeyWindow, 0)
    case None => None
    case Some(p) =>
      var w := filename[p..p + 24];
      assert IsKeyWindow(w);
      var key := w[4..12] + "-" + w[13..19];
      assert key[..8] == w[4..12] && key[9..] == w[13..19];
      Some(key)
  }

  /** The key is taken from the leftmost match, and there is none exactly when no window of
      the name matches. */
  lemma DuplicateKeyIsFirstMatch(filename: string)
    ensures DuplicateKey(filename).None? <==> forall p: nat :: !MatchAt(filename, 24, IsKeyWindow, p)
    ensures DuplicateKey(filename).Some? ==> exists p: nat ::
              && MatchAt(filename, 24, IsKeyWindow, p)
              && (forall q: nat :: q < p ==> !MatchAt(filename, 24, IsKeyWindow, q))
              && DuplicateKey(filename).value == filename[p..p + 24][4..12] + "-" + filename[p..p + 24][13..19]
  {
    FirstWindowIsLeftmost(filename, 24, IsKeyWindow, 0);
  }

  /** The keys of a list of reports, in order. */
  function Keys(rs: seq<ReportFile>): (ks: seq<Option<string>>)
    ensures |ks| == |rs|
  {
    if rs == [] then [] else Keys(rs[..|rs| - 1]) + [DuplicateKey(rs[|rs| - 1].filename)]
  }

  lemma {:induction false} KeyAt(rs: seq<ReportFile>, i: nat)
    requires i < |rs|
    ensures Keys(rs)[i] == DuplicateKey(rs[i].filename)
  {
    if i < |rs| - 1 {
      KeyAt(rs[..|rs| - 1], i);
    }
  }

  /** Among the first `n` reports (with keys `ks`), report `i` is the one kept for its key: no
      report with its key is larger, and every earlier one with its key is strictly smaller
      (ties go to the first seen, as `report.size > existing.size` is strict). */
  predicate KeptAmong(rs: seq<ReportFile>, ks: seq<Option<string>>, n: nat, i: nat)
    requires i < n <= |rs| == |ks|
  {
    && ks[i].Some?
    && (forall j :: 0 <= j < n && ks[j] == ks[i] ==> rs[j].size <= rs[i].size)
    && (forall j :: 0 <= j < i && ks[j] == ks[i] ==> rs[j].size < rs[i].size)
  }

  predicate IsKept(rs: seq<ReportFile>, i: nat)
    requires i < |rs|
  {
    KeptAmong(rs, Keys(rs), |rs|, i)
  }

  /** Report `i` is one findDuplicates returns: it has a key and is not the one kept for it. */
  predicate IsDuplicate(rs: seq<ReportFile>, i: nat)
    requires i < |rs|
  {
    Keys(rs)[i].Some? && !IsKept(rs, i)
  }

  /** The distinct keys present among the first `n`. */
  function KeySet(ks: seq<Option<string>>, n: nat): set<string>
    requires n <= |ks|
  {
    set i | 0 <= i < n && ks[i].Some? :: ks[i].value
  }

  /** How many of the first `n` keys are present (how many reports match the pattern). */
  function MatchedCount(ks: seq<Option<string>>, n: nat): nat
    requires n <= |ks|
  {
    if n == 0 then 0 else MatchedCount(ks, n - 1) + (if ks[n - 1].Some? then 1 else 0)
  }

  /** At most one report is kept per key. */
  lemma KeptUnique(rs: seq<ReportFile>, ks: seq<Option<string>>, n: nat, i: nat, j: nat)
    requires i < n <= |rs| == |ks| && j < n
    requires KeptAmong(rs, ks, n, i) && KeptAmong(rs, ks, n, j) && ks[i] == ks[j]
    ensures i == j
  {
  }

  /** At least one report is kept per key present among the first `n`: the one kept for the
      key of report `w` is report `i`. */
  lemma {:induction false} KeptExists(rs: seq<ReportFile>, ks: seq<Option<string>>, n: nat, w: nat) returns (i: nat)
    requires w < n <= |rs| == |ks| && ks[w].Some?
    ensures i < n && ks[i] == ks[w] && KeptAmong(rs, ks, n, i)
  {
    var m := n - 1;
    var e: nat;
    if w < m {
      e := KeptExists(rs, ks, m, w);
    } else if exists x :: 0 <= x < m && ks[x] == ks[w] {
      var x :| 0 <= x < m && ks[x] == ks[w];
      e := KeptExists(rs, ks, m, x);
    } else {
      i := m;
      assert KeptAmong(rs, ks, n, i);
      return;
    }
    var key := ks[w];
    if ks[m] == key && rs[m].size > rs[e].size {
      i := m;
      forall j | 0 <= j < n && ks[j] == key ensures rs[j].size <= rs[i].size {
        if j < m {
          assert rs[j].size <= rs[e].size;
        }
      }
    } else {
      i := e;
      forall j | 0 <= j < n && ks[j] == key ensures rs[j].size <= rs[i].size {
        if j < m {
          assert KeptAmong(rs, ks, m, e);
        }
      }
    }
  }

  /** A report alone with its key is never a duplicate. */
  lemma SoleReportKept(rs: seq<ReportFile>, i: nat)
    requires i < |rs| && DuplicateKey(rs[i].filename).Some?
    requires forall j :: 0 <= j < |rs| && j != i ==> DuplicateKey(rs[j].filename) != DuplicateKey(rs[i].filename)
    ensures !IsDuplicate(rs, i)
  {
    KeyAt(rs, i);
    forall j | 0 <= j < |rs| && j != i ensures Keys(rs)[j] != Keys(rs)[i] {
      KeyAt(rs, j);
    }
  }

  /** A report kept among the first `n` stays kept when the next report has another key. */
  lemma KeptAmongExtend(rs: seq<ReportFile>, ks: seq<Option<string>>, n: nat, x: nat)
    requires x < n < |rs| == |ks|
    requires KeptAmong(rs, ks, n, x) && ks[n] != ks[x]
    ensures KeptAmong(rs, ks, n + 1, x)
  {
  }

  lemma KeySetSnoc(ks: seq<Option<string>>, n: nat)
    requires n < |ks|
    ensures KeySet(ks, n + 1) == KeySet(ks, n) + (if ks[n].Some? then {ks[n].value} else {})
  {
  }

  /** What `dateMap` holds after the first `n` reports: for every key seen so far, the report
      kept among them, which sits at index `keptAt[key]`. */
  ghost predicate Tracked(rs: seq<ReportFile>, ks: seq<Option<string>>, n: nat,
                          dateMap: map<string, ReportFile>, keptAt: map<string, nat>)
    requires n <= |rs| == |ks|
  {
    && dateMap.Keys == keptAt.Keys == KeySet(ks, n)
    && (forall k :: k in keptAt ==>
          keptAt[k] < n && rs[keptAt[k]] == dateMap[k] && ks[keptAt[k]] == Some(k) &&
          KeptAmong(rs, ks, n, keptAt[k]))
  }

  /** What `duplicates` holds after the first `n` reports: once each, the matched reports seen
      so far other than the ones `keptAt` points to. */
  ghost predicate Pushed(rs: seq<ReportFile>, ks: seq<Option<string>>, n: nat,
                         keptAt: map<string, nat>, duplicates: seq<ReportFile>)
    requires n <= |rs| == |ks|
  {
    && PushedExactly(rs, ks, n, keptAt, duplicates)
    && PushedOnce(rs, n, duplicates)
    && |duplicates| + |keptAt.Keys| == MatchedCount(ks, n)
  }

  ghost predicate PushedExactly(rs: seq<ReportFile>, ks: seq<Option<string>>, n: nat,
                                keptAt: map<string, nat>, duplicates: seq<ReportFile>)
    requires n <= |rs| == |ks|
  {
    forall j :: 0 <= j < n ==>
      (rs[j] in duplicates <==> ks[j].Some? && ks[j].value in keptAt && keptAt[ks[j].value] != j)
  }

  ghost predicate PushedOnce(rs: seq<ReportFile>, n: nat, duplicates: seq<ReportFile>)
    requires n <= |rs|
  {
    (forall d :: d in duplicates ==> d in rs[..n]) && Distinct(duplicates)
  }

  lemma OnceSame(rs: seq<ReportFile>, n: nat, duplicates: seq<ReportFile>)
    requires n < |rs| && PushedOnce(rs, n, duplicates)
    ensures PushedOnce(rs, n + 1, duplicates)
  {
    assert rs[..n + 1] == rs[..n] + [rs[n]];
  }

  lemma OncePush(rs: seq<ReportFile>, n: nat, duplicates: seq<ReportFile>, x: ReportFile)
    requires n < |rs| && PushedOnce(rs, n, duplicates)
    requires x in rs[..n + 1] && x !in duplicates
    ensures PushedOnce(rs, n + 1, duplicates + [x])
  {
    assert rs[..n + 1] == rs[..n] + [rs[n]];
  }

  /** The report being read is not among those seen before it. */
  lemma NotSeen(rs: seq<ReportFile>, n: nat, duplicates: seq<ReportFile>)
    requires Distinct(rs) && n < |rs| && PushedOnce(rs, n, duplicates)
    ensures rs[n] !in rs[..n] && rs[n] !in duplicates
  {
  }

  // One lemma per branch of the loop body and per half of the loop invariant.

  lemma UnmatchedTracked(rs: seq<ReportFile>, ks: seq<Option<string>>, n: nat,
                         dateMap: map<string, ReportFile>, keptAt: map<string, nat>)
    requires n < |rs| == |ks| && ks[n].None?
    requires Tracked(rs, ks, n, dateMap, keptAt)
    ensures Tracked(rs, ks, n + 1, dateMap, keptAt)
  {
    KeySetSnoc(ks, n);
    forall k | k in keptAt ensures KeptAmong(rs, ks, n + 1, keptAt[k]) {
      KeptAmongExtend(rs, ks, n, keptAt[k]);
    }
  }

  lemma UnmatchedPushed(rs: seq<ReportFile>, ks: seq<Option<string>>, n: nat,
                        keptAt: map<string, nat>, duplicates: seq<ReportFile>)
    requires Distinct(rs) && n < |rs| == |ks| && ks[n].None?
    requires Pushed(rs, ks, n, keptAt, duplicates)
    ensures Pushed(rs, ks, n + 1, keptAt, duplicates)
  {
    NotSeen(rs, n, duplicates);
    OnceSame(rs, n, duplicates);
  }


  lemma FirstTracked(rs: seq<ReportFile>, ks: seq<Option<string>>, n: nat,
                     dateMap: map<string, ReportFile>, keptAt: map<string, nat>)
    requires n < |rs| == |ks| && ks[n].Some? && ks[n].value !in keptAt
    requires Tracked(rs, ks, n, dateMap, keptAt)
    ensures Tracked(rs, ks, n + 1, dateMap[ks[n].value := rs[n]], keptAt[ks[n].value := n])
  {
    KeySetSnoc(ks, n);
    forall k | k in keptAt ensures KeptAmong(rs, ks, n + 1, keptAt[k]) {
      KeptAmongExtend(rs, ks, n, keptAt[k]);
    }
    assert KeptAmong(rs, ks, n + 1, n);
  }

  lemma FirstPushed(rs: seq<ReportFile>, ks: seq<Option<string>>, n: nat,
                    keptAt: map<string, nat>, duplicates: seq<ReportFile>)
    requires Distinct(rs) && n < |rs| == |ks| && ks[n].Some? && ks[n].value !in keptAt
    requires keptAt.Keys == KeySet(ks, n)
    requires Pushed(rs, ks, n, keptAt, duplicates)
    ensures Pushed(rs, ks, n + 1, keptAt[ks[n].value := n], duplicates)
  {
    NotSeen(rs, n, duplicates);
    OnceSame(rs, n, duplicates);
    FirstExactly(rs, ks, n, keptAt, duplicates);
    assert keptAt[ks[n].value := n].Keys == keptAt.Keys + {ks[n].value};
  }

  lemma FirstExactly(rs: seq<ReportFile>, ks: seq<Option<string>>, n: nat,
                     keptAt: map<string, nat>, duplicates: seq<ReportFile>)
    requires n < |rs| == |ks| && ks[n].Some? && ks[n].value !in keptAt
    requires keptAt.Keys == KeySet(ks, n)
    requires PushedExactly(rs, ks, n, keptAt, duplicates) && rs[n] !in duplicates
    ensures PushedExactly(rs, ks, n + 1, keptAt[ks[n].value := n], duplicates)
  {
    var keptAt' := keptAt[ks[n].value := n];
    forall j | 0 <= j < n + 1
      ensures rs[j] in duplicates <==> ks[j].Some? && ks[j].value in keptAt' && keptAt'[ks[j].value] != j
    {
      if j < n && ks[j].Some? {
        assert ks[j].value in KeySet(ks, n);
      }
    }
  }


  lemma LargerTracked(rs: seq<ReportFile>, ks: seq<Option<string>>, n: nat,
                      dateMap: map<string, ReportFile>, keptAt: map<string, nat>)
    requires n < |rs| == |ks| && ks[n].Some? && ks[n].value in keptAt
    requires Tracked(rs, ks, n, dateMap, keptAt)
    requires rs[n].size > dateMap[ks[n].value].size
    ensures Tracked(rs, ks, n + 1, dateMap[ks[n].value := rs[n]], keptAt[ks[n].value := n])
  {
    var k := ks[n].value;
    var e := keptAt[k];
    KeySetSnoc(ks, n);
    forall c | c in keptAt && c != k ensures KeptAmong(rs, ks, n + 1, keptAt[c]) {
      KeptAmongExtend(rs, ks, n, keptAt[c]);
    }
    Overtakes(rs, ks, n, e);
  }

  /** A report strictly larger than the one kept for its key is kept in its place. */
  lemma Overtakes(rs: seq<ReportFile>, ks: seq<Option<string>>, n: nat, e: nat)
    requires e < n < |rs| == |ks| && KeptAmong(rs, ks, n, e)
    requires ks[n] == ks[e] && rs[n].size > rs[e].size
    ensures KeptAmong(rs, ks, n + 1, n)
  {
    forall j | 0 <= j < n + 1 && ks[j] == ks[n] ensures rs[j].size <= rs[n].size {
      if j < n {
        assert rs[j].size <= rs[e].size;
      }
    }
  }

  lemma LargerPushed(rs: seq<ReportFile>, ks: seq<Option<string>>, n: nat,
                     keptAt: map<string, nat>, duplicates: seq<ReportFile>)
    requires Distinct(rs) && n < |rs| == |ks| && ks[n].Some? && ks[n].value in keptAt
    requires keptAt[ks[n].value] < n && ks[keptAt[ks[n].value]] == ks[n]
    requires Pushed(rs, ks, n, keptAt, duplicates)
    ensures Pushed(rs, ks, n + 1, keptAt[ks[n].value := n], duplicates + [rs[keptAt[ks[n].value]]])
  {
    var e := keptAt[ks[n].value];
    NotSeen(rs, n, duplicates);
    assert rs[e] !in duplicates;
    OncePush(rs, n, duplicates, rs[e]);
    LargerExactly(rs, ks, n, keptAt, duplicates);
    assert keptAt[ks[n].value := n].Keys == keptAt.Keys;
  }

  lemma LargerExactly(rs: seq<ReportFile>, ks: seq<Option<string>>, n: nat,
                      keptAt: map<string, nat>, duplicates: seq<ReportFile>)
    requires Distinct(rs) && n < |rs| == |ks| && ks[n].Some? && ks[n].value in keptAt
    requires keptAt[ks[n].value] < n && ks[keptAt[ks[n].value]] == ks[n]
    requires PushedExactly(rs, ks, n, keptAt, duplicates) && rs[n] !in duplicates
    ensures PushedExactly(rs, ks, n + 1, keptAt[ks[n].value := n], duplicates + [rs[keptAt[ks[n].value]]])
  {
  }


  lemma SmallerTracked(rs: seq<ReportFile>, ks: seq<Option<string>>, n: nat,
                       dateMap: map<string, ReportFile>, keptAt: map<string, nat>)
    requires n < |rs| == |ks| && ks[n].Some? && ks[n].value in keptAt
    requires Tracked(rs, ks, n, dateMap, keptAt)
    requires rs[n].size <= dateMap[ks[n].value].size
    ensures Tracked(rs, ks, n + 1, dateMap, keptAt)
  {
    var k := ks[n].value;
    KeySetSnoc(ks, n);
    forall c | c in keptAt && c != k ensures KeptAmong(rs, ks, n + 1, keptAt[c]) {
      KeptAmongExtend(rs, ks, n, keptAt[c]);
    }
    assert KeptAmong(rs, ks, n + 1, keptAt[k]);
  }

  lemma SmallerPushed(rs: seq<ReportFile>, ks: seq<Option<string>>, n: nat,
                      keptAt: map<string, nat>, duplicates: seq<ReportFile>)
    requires Distinct(rs) && n < |rs| == |ks| && ks[n].Some? && ks[n].value in keptAt
    requires keptAt[ks[n].value] < n
    requires Pushed(rs, ks, n, keptAt, duplicates)
    ensures Pushed(rs, ks, n + 1, keptAt, duplicates + [rs[n]])
  {
    NotSeen(rs, n, duplicates);
    OncePush(rs, n, duplicates, rs[n]);
  }


  /** Once every report is seen, `duplicates` holds exactly the reports that are not kept, and
      each matched report is either kept (one per key) or a duplicate. */
  lemma PushedAll(rs: seq<ReportFile>, ks: seq<Option<string>>,
                  dateMap: map<string, ReportFile>, keptAt: map<string, nat>, duplicates: seq<ReportFile>)
    requires |rs| == |ks|
    requires Tracked(rs, ks, |rs|, dateMap, keptAt) && Pushed(rs, ks, |rs|, keptAt, duplicates)
    ensures forall d :: d in duplicates ==> d in rs
    ensures forall i :: 0 <= i < |rs| ==> (rs[i] in duplicates <==> ks[i].Some? && !KeptAmong(rs, ks, |rs|, i))
    ensures |duplicates| + |KeySet(ks, |rs|)| == MatchedCount(ks, |rs|)
  {
    assert rs[..|rs|] == rs;
    forall i | 0 <= i < |rs| && ks[i].Some?
      ensures rs[i] in duplicates <==> !KeptAmong(rs, ks, |rs|, i)
    {
      assert ks[i].value in KeySet(ks, |rs|);
      var e := keptAt[ks[i].value];
      if KeptAmong(rs, ks, |rs|, i) {
        KeptUnique(rs, ks, |rs|, i, e);
      }
    }
  }

  /** One turn of findDuplicates' loop: report `i` is compared with the one `dateMap` keeps
      for its key, and the smaller of the two (the new one on a tie) is pushed. */
  method VisitReport(reports: seq<ReportFile>, ghost ks: seq<Option<string>>, i: nat,
                     dateMap: map<string, ReportFile>, ghost keptAt: map<string, nat>,
                     duplicates: seq<ReportFile>)
    returns (dateMap': map<string, ReportFile>, ghost keptAt': map<string, nat>, duplicates': seq<ReportFile>)
    requires Distinct(reports) && i < |reports| && ks == Keys(reports)
    requires Tracked(reports, ks, i, dateMap, keptAt) && Pushed(reports, ks, i, keptAt, duplicates)
    ensures Tracked(reports, ks, i + 1, dateMap', keptAt') && Pushed(reports, ks, i + 1, keptAt', duplicates')
  {
    var report := reports[i];
    var key := DuplicateKey(report.filename);
    KeyAt(reports, i);
    dateMap', keptAt', duplicates' := dateMap, keptAt, duplicates;
    if key.Some? {
      var dateTime := key.value;
      if dateTime in dateMap {
        var existing := dateMap[dateTime];
        if report.size > existing.size {
          LargerTracked(reports, ks, i, dateMap, keptAt);
          LargerPushed(reports, ks, i, keptAt, duplicates);
          duplicates' := duplicates + [existing];
          dateMap' := dateMap[dateTime := report];
          keptAt' := keptAt[dateTime := i];
        } else {
          SmallerTracked(reports, ks, i, dateMap, keptAt);
          SmallerPushed(reports, ks, i, keptAt, duplicates);
          duplicates' := duplicates + [report];
        }
      } else {
        FirstTracked(reports, ks, i, dateMap, keptAt);
        FirstPushed(reports, ks, i, keptAt, duplicates);
        dateMap' := dateMap[dateTime := report];
        keptAt' := keptAt[dateTime := i];
      }
    } else {
      UnmatchedTracked(reports, ks, i, dateMap, keptAt);
      UnmatchedPushed(reports, ks, i, keptAt, duplicates);
    }
  }

  /** findDuplicates: one pass that keeps, per key, the largest report seen so far in
      `dateMap` and pushes every report it displaces or that loses against it. */
  method FindDuplicates(reports: seq<ReportFile>) returns (duplicates: seq<ReportFile>)
    requires Distinct(reports)
    ensures forall d :: d in duplicates ==> d in reports
    ensures Distinct(duplicates)
    ensures forall i :: 0 <= i < |reports| ==> (reports[i] in duplicates <==> IsDuplicate(reports, i))
    ensures |duplicates| + |KeySet(Keys(reports), |reports|)| == MatchedCount(Keys(reports), |reports|)
  {
    ghost var ks := Keys(reports);
    var dateMap: map<string, ReportFile> := map[];
    ghost var keptAt: map<string, nat> := map[];
    duplicates := [];
    assert KeySet(ks, 0) == {};
    var i := 0;
    while i < |reports|
      invariant 0 <= i <= |reports|
      invariant Tracked(reports, ks, i, dateMap, keptAt)
      invariant Pushed(reports, ks, i, keptAt, duplicates)
    {
      dateMap, keptAt, duplicates := VisitReport(reports, ks, i, dateMap, keptAt, duplicates);
      i := i + 1;
    }
    PushedAll(reports, ks, dateMap, keptAt, duplicates);
  }

  // ---------------------------------------------------------------------------------------
  // cleanupReports

  /** The names cleanupReports deletes: every report that is empty or a duplicate. */
  function Doomed(files: Files, listing: seq<string>): set<string>
    requires forall n :: n in listing ==> n in files
  {
    var rs := AllReports(files, listing);
    set i | 0 <= i < |rs| && (EmptyContent(files[rs[i].filename].content) || IsDuplicate(rs, i)) :: rs[i].filename
  }

  /** No two canonical reports of the directory share a date-time key. */
  predicate UniqueReportKeys(files: Files) {
    forall a, b ::
      (a in files && b in files && IsReportName(a) && IsReportName(b) &&
       DuplicateKey(a).Some? && DuplicateKey(a) == DuplicateKey(b)) ==> a == b
  }

  /** No canonical report of the directory is empty. */
  predicate NoEmptyReports(files: Files) {
    forall n :: n in files && IsReportName(n) ==> !EmptyContent(files[n].content)
  }

  /** Once every empty report and every duplicate is gone, the surviving canonical reports are
      all non-empty and there is exactly one per date-time key at most. */
  lemma CleanDirectory(files: Files, listing: seq<string>)
    requires Enumerates(listing, files)
    ensures UniqueReportKeys(files - Doomed(files, listing))
    ensures NoEmptyReports(files - Doomed(files, listing))
  {
    var rs := AllReports(files, listing);
    var rest := files - Doomed(files, listing);
    forall a, b | a in rest && b in rest && IsReportName(a) && IsReportName(b) &&
        DuplicateKey(a).Some? && DuplicateKey(a) == DuplicateKey(b)
      ensures a == b
    {
      var i :| 0 <= i < |rs| && rs[i] == ReportFile(a, files[a].size);
      var j :| 0 <= j < |rs| && rs[j] == ReportFile(b, files[b].size);
      KeyAt(rs, i);
      KeyAt(rs, j);
      assert !IsDuplicate(rs, i) && !IsDuplicate(rs, j);
      KeptUnique(rs, Keys(rs), |rs|, i, j);
    }
    forall n | n in rest && IsReportName(n)
      ensures !EmptyContent(rest[n].content)
    {
      var i :| 0 <= i < |rs| && rs[i] == ReportFile(n, files[n].size);
    }
  }

  lemma CleanDirectoryAfter(files: Files, listing: seq<string>, fails: set<string>)
    requires Enumerates(listing, files)
    ensures fails == {} ==> UniqueReportKeys(files - (Doomed(files, listing) - fails))
    ensures fails == {} ==> NoEmptyReports(files - (Doomed(files, listing) - fails))
  {
    if fails == {} {
      assert Doomed(files, listing) - fails == Doomed(files, listing);
      CleanDirectory(files, listing);
    }
  }

  /** A duplicate-free list drawn from a set is no longer than the set. */
  lemma {:induction false} SubsetLength<T>(a: seq<T>, b: set<T>)
    requires Distinct(a) && forall x :: x in a ==> x in b
    ensures |a| <= |b|
  {
    if a != [] {
      var x := a[|a| - 1];
      var a' := a[..|a| - 1];
      forall y | y in a' ensures y in b - {x} {
        var k :| 0 <= k < |a'| && a'[k] == y;
        assert a[k] == y;
      }
      SubsetLength(a', b - {x});
    }
  }

  lemma {:induction false} SetOfSeqLength<T>(s: seq<T>)
    ensures |set x | x in s| <= |s|
  {
    if s != [] {
      var s' := s[..|s| - 1];
      assert (set x | x in s) == (set x | x in s') + {s[|s| - 1]};
      SetOfSeqLength(s');
    }
  }

  /** The names of a list of reports. */
  function Names(rs: seq<ReportFile>): set<string> {
    if rs == [] then {} else Names(rs[..|rs| - 1]) + {rs[|rs| - 1].filename}
  }

  lemma {:induction false} InNames(rs: seq<ReportFile>, r: ReportFile)
    requires r in rs
    ensures r.filename in Names(rs)
  {
    if r != rs[|rs| - 1] {
      assert r in rs[..|rs| - 1];
      InNames(rs[..|rs| - 1], r);
    }
  }

  lemma {:induction false} NamedIn(rs: seq<ReportFile>, n: string) returns (r: ReportFile)
    requires n in Names(rs)
    ensures r in rs && r.filename == n
  {
    if n == rs[|rs| - 1].filename {
      r := rs[|rs| - 1];
    } else {
      r := NamedIn(rs[..|rs| - 1], n);
    }
  }

  /** No two reports of the list have the same name. */
  predicate UniqueNames(rs: seq<ReportFile>) {
    forall a, b :: 0 <= a < b < |rs| ==> rs[a].filename != rs[b].filename
  }

  /** Extending a list of uniquely named reports by one adds one new name. */
  lemma NamesSnoc(rs: seq<ReportFile>, t: nat)
    requires UniqueNames(rs) && t < |rs|
    ensures Names(rs[..t + 1]) == Names(rs[..t]) + {rs[t].filename}
    ensures rs[t].filename !in Names(rs[..t])
  {
    assert rs[..t + 1][..t] == rs[..t];
    if rs[t].filename in Names(rs[..t]) {
      var r := NamedIn(rs[..t], rs[t].filename);
      assert false;
    }
  }

  /** `reports.filter(r => isEmptyReport(r.path))` */
  method EmptyReports(files: Files, reports: seq<ReportFile>) returns (empty: seq<ReportFile>)
    requires forall r :: r in reports ==> r.filename in files
    requires Distinct(reports)
    ensures forall r :: r in empty <==> r in reports && EmptyContent(files[r.filename].content)
    ensures Distinct(empty)
  {
    empty := [];
    var i := 0;
    while i < |reports|
      invariant 0 <= i <= |reports|
      invariant forall r :: r in empty <==> r in reports[..i] && EmptyContent(files[r.filename].content)
      invariant Distinct(empty)
    {
      assert reports[..i + 1] == reports[..i] + [reports[i]];
      assert reports[i] !in reports[..i];
      var isEmpty := IsEmptyReport(files[reports[i].filename].content);
      if isEmpty {
        empty := empty + [reports[i]];
      }
      i := i + 1;
    }
    assert reports[..i] == reports;
  }

  /** `[...new Set([...a, ...b])]`: the elements of both lists, each once, first-seen order. */
  method Union(a: seq<ReportFile>, b: seq<ReportFile>) returns (u: seq<ReportFile>)
    requires Distinct(a)
    ensures forall r :: r in u <==> r in a || r in b
    ensures Distinct(u)
    ensures |a| <= |u| && u[..|a|] == a
  {
    u := a;
    var j := 0;
    while j < |b|
      invariant 0 <= j <= |b|
      invariant forall r :: r in u <==> r in a || r in b[..j]
      invariant Distinct(u)
      invariant |a| <= |u| && u[..|a|] == a
    {
      assert b[..j + 1] == b[..j] + [b[j]];
      if b[j] !in u {
        u := u + [b[j]];
      }
      j := j + 1;
    }
    assert b[..j] == b;
  }

  /** Unlinking one more name not seen before: the names gone so far grow by it exactly when
      the unlink succeeds. */
  lemma UnlinkStep(before: Files, seen: set<string>, name: string, fails: set<string>, ok: bool)
    requires name !in seen && ok == (name in before && name !in fails)
    ensures ok ==> (seen + {name}) - fails == (seen - fails) + {name}
    ensures ok ==> (before - (seen - fails)) - {name} == before - ((seen - fails) + {name})
    ensures ok ==> |(seen - fails) + {name}| == |seen - fails| + 1
    ensures !ok ==> name in before ==> (seen + {name}) - fails == seen - fails
    ensures name in before - (seen - fails) <==> name in before
  {
  }

  /** One turn of the deletion loop: unlink report `t`, counting it when that succeeds. */
  method DeleteOne(d: Directory, ghost before: Files, toDelete: seq<ReportFile>, t: nat, fails: set<string>,
                   ghost gone: set<string>, deleted: nat)
    returns (ghost gone': set<string>, deleted': nat)
    requires UniqueNames(toDelete) && t < |toDelete|
    requires forall r :: r in toDelete ==> r.filename in before
    requires gone == Names(toDelete[..t]) - fails && deleted == |gone| <= t && d.files == before - gone
    modifies d
    ensures gone' == Names(toDelete[..t + 1]) - fails && deleted' == |gone'| <= t + 1 && d.files == before - gone'
  {
    var name := toDelete[t].filename;
    NamesSnoc(toDelete, t);
    var ok := d.Unlink(name, fails);
    UnlinkStep(before, Names(toDelete[..t]), name, fails, ok);
    if ok {
      deleted' := deleted + 1;
      gone' := gone + {name};
    } else {
      deleted' := deleted;
      gone' := gone;
    }
  }

  /** The deletion loop of cleanupReports: unlink each report, counting the successes. */
  method DeleteReports(d: Directory, toDelete: seq<ReportFile>, fails: set<string>) returns (deleted: nat)
    requires UniqueNames(toDelete)
    requires forall r :: r in toDelete ==> r.filename in d.files
    modifies d
    ensures d.files == old(d.files) - (Names(toDelete) - fails)
    ensures deleted == |Names(toDelete) - fails|
    ensures deleted <= |toDelete|
  {
    ghost var before := d.files;
    deleted := 0;
    ghost var gone: set<string> := {};
    var t := 0;
    while t < |toDelete|
      invariant 0 <= t <= |toDelete|
      invariant gone == Names(toDelete[..t]) - fails
      invariant deleted == |gone| <= t
      invariant d.files == before - gone
    {
      gone, deleted := DeleteOne(d, before, toDelete, t, fails, gone, deleted);
      t := t + 1;
    }
    assert toDelete[..t] == toDelete;
  }

  /** The union of the empty reports and the duplicates names exactly the doomed files, once
      each. */
  lemma ToDeleteIsDoomed(files: Files, listing: seq<string>, empty: seq<ReportFile>,
                         duplicates: seq<ReportFile>, toDelete: seq<ReportFile>)
    requires Enumerates(listing, files)
    requires forall r :: r in empty <==> r in AllReports(files, listing) && EmptyContent(files[r.filename].content)
    requires forall d :: d in duplicates ==> d in AllReports(files, listing)
    requires forall i :: 0 <= i < |AllReports(files, listing)| ==>
               (AllReports(files, listing)[i] in duplicates <==> IsDuplicate(AllReports(files, listing), i))
    requires forall r :: r in toDelete <==> r in empty || r in duplicates
    requires Distinct(toDelete)
    ensures Names(toDelete) == Doomed(files, listing)
    ensures UniqueNames(toDelete)
    ensures forall r :: r in toDelete ==> r.filename in files
  {
    ToDeleteWithinDoomed(files, listing, empty, duplicates, toDelete);
    DoomedWithinToDelete(files, listing, empty, duplicates, toDelete);
    DistinctReportsUniqueNames(files, listing, toDelete);
  }

  lemma ToDeleteWithinDoomed(files: Files, listing: seq<string>, empty: seq<ReportFile>,
                             duplicates: seq<ReportFile>, toDelete: seq<ReportFile>)
    requires forall n :: n in listing ==> n in files
    requires forall r :: r in empty ==> r in AllReports(files, listing) && EmptyContent(files[r.filename].content)
    requires forall d :: d in duplicates ==> d in AllReports(files, listing)
    requires forall i :: 0 <= i < |AllReports(files, listing)| && AllReports(files, listing)[i] in duplicates ==>
               IsDuplicate(AllReports(files, listing), i)
    requires forall r :: r in toDelete ==> r in empty || r in duplicates
    ensures Names(toDelete) <= Doomed(files, listing)
  {
    var reports := AllReports(files, listing);
    forall n | n in Names(toDelete) ensures n in Doomed(files, listing) {
      var r := NamedIn(toDelete, n);
      var k :| 0 <= k < |reports| && reports[k] == r;
    }
  }

  lemma DoomedWithinToDelete(files: Files, listing: seq<string>, empty: seq<ReportFile>,
                             duplicates: seq<ReportFile>, toDelete: seq<ReportFile>)
    requires forall n :: n in listing ==> n in files
    requires forall r :: r in AllReports(files, listing) && EmptyContent(files[r.filename].content) ==> r in empty
    requires forall i :: 0 <= i < |AllReports(files, listing)| && IsDuplicate(AllReports(files, listing), i) ==>
               AllReports(files, listing)[i] in duplicates
    requires forall r :: r in empty || r in duplicates ==> r in toDelete
    ensures Doomed(files, listing) <= Names(toDelete)
  {
    var reports := AllReports(files, listing);
    forall n | n in Doomed(files, listing) ensures n in Names(toDelete) {
      var k :| 0 <= k < |reports| && n == reports[k].filename &&
               (EmptyContent(files[reports[k].filename].content) || IsDuplicate(reports, k));
      InNames(toDelete, reports[k]);
    }
  }

  /** Distinct reports of a directory listing have distinct names. */
  lemma DistinctReportsUniqueNames(files: Files, listing: seq<string>, rs: seq<ReportFile>)
    requires forall n :: n in listing ==> n in files
    requires Distinct(rs)
    requires forall r :: r in rs ==> r in AllReports(files, listing)
    ensures UniqueNames(rs)
    ensures forall r :: r in rs ==> r.filename in files
  {
    forall a, b | 0 <= a < b < |rs| ensures rs[a].filename != rs[b].filename {
      assert rs[a] in AllReports(files, listing) && rs[b] in AllReports(files, listing);
    }
  }

  /** cleanupReports: delete the union of the empty reports and the duplicates, each once; a
      failed unlink is reported and skipped. Returns `{deleted, remaining}`. */
  method CleanupReports(d: Directory, listing: seq<string>, fails: set<string>)
      returns (deleted: nat, remaining: nat)
    requires Enumerates(listing, d.files)
    modifies d
    ensures d.files == old(d.files) - (Doomed(old(d.files), listing) - fails)
    ensures deleted == |Doomed(old(d.files), listing) - fails|
    ensures remaining == |AllReports(old(d.files), listing)| - deleted
    ensures fails == {} ==> UniqueReportKeys(d.files) && NoEmptyReports(d.files)
  {
    ghost var before := d.files;
    var reports := AllReports(d.files, listing);
    var emptyReports := EmptyReports(d.files, reports);
    var duplicates := FindDuplicates(reports);
    var toDelete := Union(emptyReports, duplicates);
    ToDeleteIsDoomed(before, listing, emptyReports, duplicates, toDelete);
    if |toDelete| == 0 {
      assert Doomed(before, listing) - fails == {};
      assert before - (Doomed(before, listing) - fails) == before;
      CleanDirectoryAfter(before, listing, fails);
      return 0, |reports|;
    }
    deleted := DeleteReports(d, toDelete, fails);
    SubsetLength(toDelete, set r | r in reports);
    SetOfSeqLength(reports);
    remaining := |reports| - deleted;
    CleanDirectoryAfter(before, listing, fails);
  }
}
