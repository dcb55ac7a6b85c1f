/** make-100-percent.js: count the step statuses of one report, mark every step that has not
    passed as passed (giving it a one-second duration when it has none), and write the result
    to a new report file. */
module ForcePass {
  import opened Options
  import opened Text
  import opened Json
  import opened Cucumber
  import opened Storage

  // ---------------------------------------------------------------------------------------
  // The counting loop

  /** `step.result` */
  function ResultOf(step: Json): Option<Json> {
    Field(step, "result")
  }

  /** `step.result.status` can be read: the step has a `result` that is not null. */
  predicate StepOk(step: Json) {
    ResultOf(step).Some? && !ResultOf(step).value.JNull?
  }

  /** `scenario.steps.forEach` runs: `steps` is an array whose steps can all be read. */
  predicate ScenarioOk(scenario: Json) {
    && Field(scenario, "steps").Some? && Field(scenario, "steps").value.JArr?
    && forall step :: step in StepsOf(scenario) ==> StepOk(step)
  }

  /** `feature.elements.forEach` runs: `elements` is an array of readable scenarios. */
  predicate FeatureOk(feature: Json) {
    && Field(feature, "elements").Some? && Field(feature, "elements").value.JArr?
    && forall scenario :: scenario in ScenariosOf(feature) ==> ScenarioOk(scenario)
  }

  /** The counting loop runs without a TypeError: `data.forEach` needs an array (a
      `{features: ...}` wrapper object has no `forEach`). */
  predicate ShapeOk(data: Json) {
    data.JArr? && forall feature :: feature in data.items ==> FeatureOk(feature)
  }

  /** `step.result.status`, None for `undefined`. */
  function Status(step: Json): Option<Json> {
    match ResultOf(step)
    case Some(r) => Field(r, "status")
    case None => None
  }

  /** The four counters of the script. */
  datatype Tally = Tally(total: nat, passed: nat, failed: nat, skipped: nat)

  function Plus(a: Tally, b: Tally): Tally {
    Tally(a.total + b.total, a.passed + b.passed, a.failed + b.failed, a.skipped + b.skipped)
  }

  function Indicator(b: bool): nat {
    if b then 1 else 0
  }

  /** One step counts in `total`, and in the counter of its status when that is exactly
      "passed", "failed" or "skipped". */
  function StepTally(step: Json): Tally {
    Tally(1, Indicator(Status(step) == Some(JStr("passed"))), Indicator(Status(step) == Some(JStr("failed"))),
          Indicator(Status(step) == Some(JStr("skipped"))))
  }

  function TallySteps(steps: seq<Json>): Tally {
    if steps == [] then Tally(0, 0, 0, 0)
    else Plus(TallySteps(steps[..|steps| - 1]), StepTally(steps[|steps| - 1]))
  }

  function TallyScenarios(scenarios: seq<Json>): Tally {
    if scenarios == [] then Tally(0, 0, 0, 0)
    else Plus(TallyScenarios(scenarios[..|scenarios| - 1]), TallySteps(StepsOf(scenarios[|scenarios| - 1])))
  }

  function TallyFeatures(features: seq<Json>): Tally {
    if features == [] then Tally(0, 0, 0, 0)
    else Plus(TallyFeatures(features[..|features| - 1]), TallyScenarios(ScenariosOf(features[|features| - 1])))
  }

  /** A step is counted in at most one status counter, so they never add up to more than the
      total. */
  predicate Bounded(t: Tally) {
    t.passed + t.failed + t.skipped <= t.total
  }

  lemma {:induction false} StepsBounded(steps: seq<Json>)
    ensures Bounded(TallySteps(steps)) && TallySteps(steps).total == |steps|
  {
    if steps != [] {
      StepsBounded(steps[..|steps| - 1]);
    }
  }

  lemma {:induction false} ScenariosBounded(scenarios: seq<Json>)
    ensures Bounded(TallyScenarios(scenarios))
  {
    if scenarios != [] {
      ScenariosBounded(scenarios[..|scenarios| - 1]);
      StepsBounded(StepsOf(scenarios[|scenarios| - 1]));
    }
  }

  /** `passed + failed + skipped <= total`: other statuses count only in the total. */
  lemma {:induction false} FeaturesBounded(features: seq<Json>)
    ensures Bounded(TallyFeatures(features))
  {
    if features != [] {
      FeaturesBounded(features[..|features| - 1]);
      ScenariosBounded(ScenariosOf(features[|features| - 1]));
    }
  }

  lemma StatusNamesDiffer()
    ensures "passed" != "failed" && "passed" != "skipped" && "failed" != "skipped"
  {
    assert "passed"[0] == 'p' && "failed"[0] == 'f' && "skipped"[0] == 's';
  }

  lemma TallyStepsSnoc(steps: seq<Json>, k: nat)
    requires k < |steps|
    ensures TallySteps(steps[..k + 1]) == Plus(TallySteps(steps[..k]), StepTally(steps[k]))
  {
    assert steps[..k + 1][..k] == steps[..k];
  }

  /** One step of the innermost loop: `total++`, then the counter its status names. */
  method CountStep(t: Tally, step: Json) returns (t': Tally)
    ensures t' == Plus(t, StepTally(step))
  {
    var status := Status(step);
    StatusNamesDiffer();
    t' := t.(total := t.total + 1);
    if status == Some(JStr("passed")) {
      t' := t'.(passed := t'.passed + 1);
    } else if status == Some(JStr("failed")) {
      t' := t'.(failed := t'.failed + 1);
    } else if status == Some(JStr("skipped")) {
      t' := t'.(skipped := t'.skipped + 1);
    }
  }

  /** The innermost counting loop; `ok` is false where reading a step's status throws. */
  method CountStepStatuses(steps: seq<Json>) returns (t: Tally, ok: bool)
    ensures ok <==> forall step :: step in steps ==> StepOk(step)
    ensures ok ==> t == TallySteps(steps)
  {
    t := Tally(0, 0, 0, 0);
    var k := 0;
    while k < |steps|
      invariant 0 <= k <= |steps|
      invariant t == TallySteps(steps[..k])
      invariant forall step :: step in steps[..k] ==> StepOk(step)
    {
      assert steps[..k + 1] == steps[..k] + [steps[k]];
      if !StepOk(steps[k]) {
        return t, false;
      }
      TallyStepsSnoc(steps, k);
      t := CountStep(t, steps[k]);
      k := k + 1;
    }
    assert steps[..k] == steps;
    ok := true;
  }

  /** The middle counting loop. */
  method CountScenarioStatuses(scenarios: seq<Json>) returns (t: Tally, ok: bool)
    ensures ok <==> forall scenario :: scenario in scenarios ==> ScenarioOk(scenario)
    ensures ok ==> t == TallyScenarios(scenarios)
  {
    t := Tally(0, 0, 0, 0);
    var j := 0;
    while j < |scenarios|
      invariant 0 <= j <= |scenarios|
      invariant t == TallyScenarios(scenarios[..j])
      invariant forall scenario :: scenario in scenarios[..j] ==> ScenarioOk(scenario)
    {
      assert scenarios[..j + 1] == scenarios[..j] + [scenarios[j]];
      var scenario := scenarios[j];
      var steps := Field(scenario, "steps");
      if !(steps.Some? && steps.value.JArr?) {
        assert scenario in scenarios && !ScenarioOk(scenario);
        return t, false;
      }
      var st, stepsOk := CountStepStatuses(StepsOf(scenario));
      if !stepsOk {
        assert scenario in scenarios && !ScenarioOk(scenario);
        return t, false;
      }
      t := Plus(t, st);
      assert scenarios[..j + 1][..j] == scenarios[..j];
      j := j + 1;
    }
    assert scenarios[..j] == scenarios;
    ok := true;
  }

  /** The outer counting loop over the features of the report. */
  method CountStatuses(features: seq<Json>) returns (t: Tally, ok: bool)
    ensures ok <==> forall feature :: feature in features ==> FeatureOk(feature)
    ensures ok ==> t == TallyFeatures(features)
  {
    t := Tally(0, 0, 0, 0);
    var i := 0;
    while i < |features|
      invariant 0 <= i <= |features|
      invariant t == TallyFeatures(features[..i])
      invariant forall feature :: feature in features[..i] ==> FeatureOk(feature)
    {
      assert features[..i + 1] == features[..i] + [features[i]];
      var feature := features[i];
      var elements := Field(feature, "elements");
      if !(elements.Some? && elements.value.JArr?) {
        assert feature in features && !FeatureOk(feature);
        return t, false;
      }
      var st, scenariosOk := CountScenarioStatuses(ScenariosOf(feature));
      if !scenariosOk {
        assert feature in features && !FeatureOk(feature);
        return t, false;
      }
      t := Plus(t, st);
      assert features[..i + 1][..i] == features[..i];
      i := i + 1;
    }
    assert features[..i] == features;
    ok := true;
  }

  // ---------------------------------------------------------------------------------------
  // The force-pass transform

  /** The duration given to a step that had none: one second in nanoseconds. */
  const PassedDuration: real := 1000000000.0

  /** The assignments to `step.result`: an object whose status is not "passed" gets status
      "passed", and the duration above when its own is falsy. Assigning a property of a
      primitive does nothing in sloppy-mode JavaScript, and properties put on an array are
      lost by `JSON.stringify`, so every other result is kept as it is. */
  function ForceResult(r: Json): (f: Json)
    ensures !r.JObj? || Field(r, "status") == Some(JStr("passed")) ==> f == r
    ensures r.JObj? ==> f.JObj? && Field(f, "status") == Some(JStr("passed"))
    ensures r.JObj? && Field(r, "status") != Some(JStr("passed")) ==>
              Field(f, "duration") == if Truthy(Field(r, "duration")) then Field(r, "duration") else Some(JNum(PassedDuration))
    ensures r.JObj? ==> forall k :: k != "status" && k != "duration" ==> Field(f, k) == Field(r, k)
  {
    if r.JObj? && Field(r, "status") != Some(JStr("passed")) then
      var withStatus := r.fields["status" := JStr("passed")];
      if Truthy(Field(r, "duration")) then JObj(withStatus)
      else JObj(withStatus["duration" := JNum(PassedDuration)])
    else r
  }

  /** A step with its result forced; nothing but `result` changes. */
  function ForceStep(step: Json): (f: Json)
    ensures ResultOf(step).Some? ==> ResultOf(f) == Some(ForceResult(ResultOf(step).value))
    ensures ResultOf(step).None? ==> f == step
    ensures forall k :: k != "result" ==> Field(f, k) == Field(step, k)
  {
    match ResultOf(step)
    case Some(r) => JObj(step.fields["result" := ForceResult(r)])
    case None => step
  }

  function ForceSteps(steps: seq<Json>): seq<Json> {
    seq(|steps|, i requires 0 <= i < |steps| => ForceStep(steps[i]))
  }

  /** A scenario with its steps forced; nothing but `steps` changes. */
  function ForceScenario(scenario: Json): (f: Json)
    ensures StepsOf(f) == ForceSteps(StepsOf(scenario))
    ensures forall k :: k != "steps" ==> Field(f, k) == Field(scenario, k)
  {
    match Field(scenario, "steps")
    case Some(JArr(steps)) => JObj(scenario.fields["steps" := JArr(ForceSteps(steps))])
    case _ => scenario
  }

  function ForceScenarios(scenarios: seq<Json>): seq<Json> {
    seq(|scenarios|, i requires 0 <= i < |scenarios| => ForceScenario(scenarios[i]))
  }

  /** A feature with its scenarios forced; nothing but `elements` changes. */
  function ForceFeature(feature: Json): (f: Json)
    ensures ScenariosOf(f) == ForceScenarios(ScenariosOf(feature))
    ensures forall k :: k != "elements" ==> Field(f, k) == Field(feature, k)
  {
    match Field(feature, "elements")
    case Some(JArr(scenarios)) => JObj(feature.fields["elements" := JArr(ForceScenarios(scenarios))])
    case _ => feature
  }

  function ForceFeatures(features: seq<Json>): seq<Json> {
    seq(|features|, i requires 0 <= i < |features| => ForceFeature(features[i]))
  }

  /** The report after the second pass of nested loops. */
  function ForcePassed(data: Json): Json {
    match data
    case JArr(features) => JArr(ForceFeatures(features))
    case _ => data
  }

  /** After the transform a step with an object result has status "passed"; a step whose
      result is not an object has none at all. */
  lemma ForcedStepStatus(step: Json)
    ensures Status(ForceStep(step)) ==
              if ResultOf(step).Some? && ResultOf(step).value.JObj? then Some(JStr("passed")) else None
  {
  }

  /** The transform keeps the outline of the report: the same number of features, of
      scenarios in each and of steps in each, and every step is its forced original. */
  lemma ForcedOutline(features: seq<Json>)
    ensures |ForceFeatures(features)| == |features|
    ensures forall i :: 0 <= i < |features| ==>
              ScenariosOf(ForceFeatures(features)[i]) == ForceScenarios(ScenariosOf(features[i]))
    ensures forall i, j :: 0 <= i < |features| && 0 <= j < |ScenariosOf(features[i])| ==>
              |StepsOf(ScenariosOf(ForceFeatures(features)[i])[j])| == |StepsOf(ScenariosOf(features[i])[j])|
    ensures forall i, j, k ::
              (0 <= i < |features| && 0 <= j < |ScenariosOf(features[i])| && 0 <= k < |StepsOf(ScenariosOf(features[i])[j])|) ==>
              StepsOf(ScenariosOf(ForceFeatures(features)[i])[j])[k] == ForceStep(StepsOf(ScenariosOf(features[i])[j])[k])
  {
  }

  /** Every step of the output whose result is an object has status "passed". */
  lemma AllForcedPassed(features: seq<Json>)
    ensures forall i, j, k ::
              (&& 0 <= i < |features| && 0 <= j < |ScenariosOf(features[i])| && 0 <= k < |StepsOf(ScenariosOf(features[i])[j])|
               && ResultOf(StepsOf(ScenariosOf(features[i])[j])[k]).Some?
               && ResultOf(StepsOf(ScenariosOf(features[i])[j])[k]).value.JObj?) ==>
              Status(StepsOf(ScenariosOf(ForceFeatures(features)[i])[j])[k]) == Some(JStr("passed"))
  {
    ForcedOutline(features);
    forall i, j, k | 0 <= i < |features| && 0 <= j < |ScenariosOf(features[i])| &&
                     0 <= k < |StepsOf(ScenariosOf(features[i])[j])|
      ensures var step := StepsOf(ScenariosOf(features[i])[j])[k];
              ResultOf(step).Some? && ResultOf(step).value.JObj? ==>
              Status(StepsOf(ScenariosOf(ForceFeatures(features)[i])[j])[k]) == Some(JStr("passed"))
    {
      ForcedStepStatus(StepsOf(ScenariosOf(features[i])[j])[k]);
    }
  }

  /** Counting again after the transform finds no failed and no skipped step, and the same
      total. */
  lemma {:induction false} ForcedStepsTally(steps: seq<Json>)
    ensures TallySteps(ForceSteps(steps)).failed == 0 && TallySteps(ForceSteps(steps)).skipped == 0
    ensures TallySteps(ForceSteps(steps)).total == TallySteps(steps).total
  {
    if steps != [] {
      var n := |steps| - 1;
      assert ForceSteps(steps)[..n] == ForceSteps(steps[..n]);
      ForcedStepsTally(steps[..n]);
      ForcedStepStatus(steps[n]);
    }
  }

  lemma {:induction false} ForcedScenariosTally(scenarios: seq<Json>)
    ensures TallyScenarios(ForceScenarios(scenarios)).failed == 0 && TallyScenarios(ForceScenarios(scenarios)).skipped == 0
    ensures TallyScenarios(ForceScenarios(scenarios)).total == TallyScenarios(scenarios).total
  {
    if scenarios != [] {
      var n := |scenarios| - 1;
      assert ForceScenarios(scenarios)[..n] == ForceScenarios(scenarios[..n]);
      ForcedScenariosTally(scenarios[..n]);
      ForcedStepsTally(StepsOf(scenarios[n]));
    }
  }

  lemma {:induction false} ForcedTally(features: seq<Json>)
    ensures TallyFeatures(ForceFeatures(features)).failed == 0 && TallyFeatures(ForceFeatures(features)).skipped == 0
    ensures TallyFeatures(ForceFeatures(features)).total == TallyFeatures(features).total
  {
    if features != [] {
      var n := |features| - 1;
      assert ForceFeatures(features)[..n] == ForceFeatures(features[..n]);
      ForcedTally(features[..n]);
      ForcedScenariosTally(ScenariosOf(features[n]));
    }
  }

  /** A readable step stays readable: its result is replaced by another non-null one. */
  lemma ForcedStepOk(step: Json)
    requires StepOk(step)
    ensures StepOk(ForceStep(step))
  {
  }

  lemma ForcedScenarioOk(scenario: Json)
    requires ScenarioOk(scenario)
    ensures ScenarioOk(ForceScenario(scenario))
  {
    var steps := StepsOf(scenario);
    forall step | step in StepsOf(ForceScenario(scenario)) ensures StepOk(step) {
      var k :| 0 <= k < |steps| && step == ForceStep(steps[k]);
      assert steps[k] in steps;
      ForcedStepOk(steps[k]);
    }
  }

  lemma ForcedFeatureOk(feature: Json)
    requires FeatureOk(feature)
    ensures FeatureOk(ForceFeature(feature))
  {
    var scenarios := ScenariosOf(feature);
    forall scenario | scenario in ScenariosOf(ForceFeature(feature)) ensures ScenarioOk(scenario) {
      var j :| 0 <= j < |scenarios| && scenario == ForceScenario(scenarios[j]);
      assert scenarios[j] in scenarios;
      ForcedScenarioOk(scenarios[j]);
    }
  }

  /** A report the script can count stays countable after the transform. */
  lemma ForcedShapeOk(data: Json)
    requires ShapeOk(data)
    ensures ShapeOk(ForcePassed(data))
  {
    forall feature | feature in ForcePassed(data).items ensures FeatureOk(feature) {
      var i :| 0 <= i < |data.items| && feature == ForceFeature(data.items[i]);
      assert data.items[i] in data.items;
      ForcedFeatureOk(data.items[i]);
    }
  }

  lemma ForceResultTwice(r: Json)
    ensures ForceResult(ForceResult(r)) == ForceResult(r)
  {
  }

  lemma ForceStepTwice(step: Json)
    ensures ForceStep(ForceStep(step)) == ForceStep(step)
  {
    if ResultOf(step).Some? {
      var r := ResultOf(step).value;
      ForceResultTwice(r);
      assert step.fields["result" := ForceResult(r)]["result" := ForceResult(ForceResult(r))] ==
             step.fields["result" := ForceResult(r)];
    }
  }

  lemma ForceScenarioTwice(scenario: Json)
    ensures ForceScenario(ForceScenario(scenario)) == ForceScenario(scenario)
  {
    if Field(scenario, "steps").Some? && Field(scenario, "steps").value.JArr? {
      var steps := Field(scenario, "steps").value.items;
      forall k | 0 <= k < |steps| ensures ForceStep(ForceStep(steps[k])) == ForceStep(steps[k]) {
        ForceStepTwice(steps[k]);
      }
      assert ForceSteps(ForceSteps(steps)) == ForceSteps(steps);
      assert scenario.fields["steps" := JArr(ForceSteps(steps))]["steps" := JArr(ForceSteps(ForceSteps(steps)))] ==
             scenario.fields["steps" := JArr(ForceSteps(steps))];
    }
  }

  lemma ForceFeatureTwice(feature: Json)
    ensures ForceFeature(ForceFeature(feature)) == ForceFeature(feature)
  {
    if Field(feature, "elements").Some? && Field(feature, "elements").value.JArr? {
      var scenarios := Field(feature, "elements").value.items;
      forall j | 0 <= j < |scenarios| ensures ForceScenario(ForceScenario(scenarios[j])) == ForceScenario(scenarios[j]) {
        ForceScenarioTwice(scenarios[j]);
      }
      assert ForceScenarios(ForceScenarios(scenarios)) == ForceScenarios(scenarios);
      assert feature.fields["elements" := JArr(ForceScenarios(scenarios))]["elements" := JArr(ForceScenarios(ForceScenarios(scenarios)))] ==
             feature.fields["elements" := JArr(ForceScenarios(scenarios))];
    }
  }

  /** The transform is idempotent: forcing its output changes nothing. */
  lemma ForceIdempotent(data: Json)
    ensures ForcePassed(ForcePassed(data)) == ForcePassed(data)
  {
    if data.JArr? {
      forall i | 0 <= i < |data.items| ensures ForceFeature(ForceFeature(data.items[i])) == ForceFeature(data.items[i]) {
        ForceFeatureTwice(data.items[i]);
      }
      assert ForceFeatures(ForceFeatures(data.items)) == ForceFeatures(data.items);
    }
  }

  /** The innermost mutation loop: each step's result is updated in turn. */
  method ForceStepsLoop(steps: seq<Json>) returns (out: seq<Json>)
    ensures out == ForceSteps(steps)
  {
    out := steps;
    var k := 0;
    while k < |out|
      invariant 0 <= k <= |out| == |steps|
      invariant forall j :: 0 <= j < k ==> out[j] == ForceStep(steps[j])
      invariant forall j :: k <= j < |out| ==> out[j] == steps[j]
    {
      var step := out[k];
      var found := ResultOf(step);
      if found.Some? {
        var result := found.value;
        if result.JObj? && Field(result, "status") != Some(JStr("passed")) {
          result := JObj(result.fields["status" := JStr("passed")]);
          if !Truthy(Field(result, "duration")) {
            result := JObj(result.fields["duration" := JNum(PassedDuration)]);
          }
        }
        out := out[k := JObj(step.fields["result" := result])];
      }
      k := k + 1;
    }
  }

  /** The middle mutation loop. */
  method ForceScenariosLoop(scenarios: seq<Json>) returns (out: seq<Json>)
    ensures out == ForceScenarios(scenarios)
  {
    out := scenarios;
    var j := 0;
    while j < |out|
      invariant 0 <= j <= |out| == |scenarios|
      invariant forall h :: 0 <= h < j ==> out[h] == ForceScenario(scenarios[h])
      invariant forall h :: j <= h < |out| ==> out[h] == scenarios[h]
    {
      var scenario := out[j];
      var steps := Field(scenario, "steps");
      if steps.Some? && steps.value.JArr? {
        var forced := ForceStepsLoop(steps.value.items);
        out := out[j := JObj(scenario.fields["steps" := JArr(forced)])];
      }
      j := j + 1;
    }
  }

  /** The outer mutation loop over the features. */
  method ForceFeaturesLoop(features: seq<Json>) returns (out: seq<Json>)
    ensures out == ForceFeatures(features)
  {
    out := features;
    var i := 0;
    while i < |out|
      invariant 0 <= i <= |out| == |features|
      invariant forall h :: 0 <= h < i ==> out[h] == ForceFeature(features[h])
      invariant forall h :: i <= h < |out| ==> out[h] == features[h]
    {
      var feature := out[i];
      var elements := Field(feature, "elements");
      if elements.Some? && elements.value.JArr? {
        var forced := ForceScenariosLoop(elements.value.items);
        out := out[i := JObj(feature.fields["elements" := JArr(forced)])];
      }
      i := i + 1;
    }
  }

  // ---------------------------------------------------------------------------------------
  // The output file

  /** `.replace(/[:.]/g, '-')` */
  function Sanitize(s: string): string {
    if s == [] then []
    else [if s[0] == ':' || s[0] == '.' then '-' else s[0]] + Sanitize(s[1..])
  }

  /** Every ':' and '.' becomes '-', every other character stays, so the result has neither
      and sanitizing it again changes nothing. */
  lemma {:induction false} SanitizeSpec(s: string)
    ensures |Sanitize(s)| == |s|
    ensures forall i :: 0 <= i < |s| ==> Sanitize(s)[i] == if s[i] == ':' || s[i] == '.' then '-' else s[i]
    ensures forall i :: 0 <= i < |s| ==> Sanitize(s)[i] != ':' && Sanitize(s)[i] != '.'
    ensures Sanitize(Sanitize(s)) == Sanitize(s)
  {
    if s != [] {
      SanitizeSpec(s[1..]);
      var r := Sanitize(s);
      assert r == [r[0]] + Sanitize(s[1..]);
      assert forall i :: 1 <= i < |s| ==> r[i] == Sanitize(s[1..])[i - 1];
      assert r[1..] == Sanitize(s[1..]);
    }
  }

  const OutputPrefix := "GeoCall-Automation-Test-Results-Report-"

  /** The output name for the ISO time of the run. */
  function ForcePassName(iso: string): (name: string)
    ensures StartsWith(name, OutputPrefix) && EndsWith(name, ".json")
  {
    Affixes(OutputPrefix, Sanitize(iso), ".json");
    OutputPrefix + Sanitize(iso) + ".json"
  }

  /** How the script ends: without an argument it prints usage and exits with status 1; an
      unreadable or unparsable file or a report it cannot walk throws; otherwise it creates
      the output file and has counted the statuses. */
  datatype ForceOutcome = UsageError | Crashed | Created(name: string, counts: Tally)

  function ForceEffect(files: Files, arg: Option<string>, isoNow: string, outSize: nat): (Files, ForceOutcome) {
    if arg.None? || arg.value == "" then (files, UsageError)
    else if arg.value !in files || !files[arg.value].content.Parsed? || !ShapeOk(files[arg.value].content.value) then
      (files, Crashed)
    else
      var data := files[arg.value].content.value;
      var name := ForcePassName(isoNow);
      (files[name := FileEntry(outSize, Parsed(ForcePassed(data)))], Created(name, TallyFeatures(data.items)))
  }

  /** The source report is only read: the one file written is the new one, and every other
      file, the source among them, keeps its content. Without the argument, or when the script
      throws, nothing changes. */
  lemma SourceOnlyRead(files: Files, arg: Option<string>, isoNow: string, outSize: nat)
    ensures var (after, outcome) := ForceEffect(files, arg, isoNow, outSize);
            && (!outcome.Created? ==> after == files)
            && (outcome.Created? ==> outcome.name == ForcePassName(isoNow) && after.Keys == files.Keys + {outcome.name})
            && (outcome.Created? ==> forall n :: n in files && n != outcome.name ==> after[n] == files[n])
  {
  }

  /** The script: check the argument, read and count the report, force it and write it out. */
  method Make100Percent(d: Directory, arg: Option<string>, isoNow: string, outSize: nat) returns (outcome: ForceOutcome)
    modifies d
    ensures (d.files, outcome) == ForceEffect(old(d.files), arg, isoNow, outSize)
  {
    if arg.None? || arg.value == "" {
      return UsageError;
    }
    var reportFile := arg.value;
    if reportFile !in d.files || !d.files[reportFile].content.Parsed? {
      return Crashed;
    }
    var data := d.files[reportFile].content.value;
    if !data.JArr? {
      return Crashed;
    }
    var counts, ok := CountStatuses(data.items);
    if !ok {
      assert !ShapeOk(data);
      return Crashed;
    }
    assert ShapeOk(data);
    var forced := ForceFeaturesLoop(data.items);
    var name := ForcePassName(isoNow);
    d.Write(name, FileEntry(outSize, Parsed(JArr(forced))));
    outcome := Created(name, counts);
  }
}
