/** How the four scripts fit together: the names one script writes are names the others
    read, and what one does to a report does not change another's verdict on it. */
module Pipeline {
  import opened Options
  import opened Text
  import opened Json
  import opened Cucumber
  import opened Storage
  import Rename
  import Uploads
  import Cleanup
  import ForcePass

  // ---------------------------------------------------------------------------------------
  // Canonical names and the duplicate key

  /** A short name is a canonical report name that the rename script leaves alone, and its
      duplicate key is the date and time it was built from. */
  lemma ShortNameKey(t: Rename.Timestamp)
    requires Rename.WellFormed(t)
    ensures Cleanup.IsReportName(Rename.ShortName(t)) && !Rename.IsCandidate(Rename.ShortName(t))
    ensures Cleanup.DuplicateKey(Rename.ShortName(t)) ==
              Some(t.year + t.month + t.day + "-" + t.hour + t.minute + t.second)
  {
    var name := Rename.ShortName(t);
    Rename.ShortNameLayout(t);
    assert name[..24] == name;
    assert name[4..12] == t.year + t.month + t.day by {
      assert name[4..12] == name[4..8] + name[8..10] + name[10..12];
    }
    assert name[13..19] == t.hour + t.minute + t.second by {
      assert name[13..19] == name[13..15] + name[15..17] + name[17..19];
    }
    Uploads.DigitsConcat3(t.year, t.month, t.day);
    Uploads.DigitsConcat3(t.hour, t.minute, t.second);
    assert Cleanup.IsKeyWindow(name[0..24]);
    assert FirstWindow(name, 24, Cleanup.IsKeyWindow, 0) == Some(0);
    var w := name[0..24];
    assert w[4..12] == t.year + t.month + t.day && w[13..19] == t.hour + t.minute + t.second;
    assert w[4..12] + "-" + w[13..19] == t.year + t.month + t.day + "-" + t.hour + t.minute + t.second;
  }

  /** Where the six fields sit in a duplicate key. */
  lemma KeyLayout(y: string, mo: string, da: string, h: string, mi: string, s: string)
    requires |y| == 4 && |mo| == 2 && |da| == 2 && |h| == 2 && |mi| == 2 && |s| == 2
    ensures var k := y + mo + da + "-" + h + mi + s;
            k[..4] == y && k[4..6] == mo && k[6..8] == da && k[9..11] == h && k[11..13] == mi && k[13..] == s
  {
    var k := y + mo + da + "-" + h + mi + s;
    assert forall i :: 0 <= i < 4 ==> k[i] == y[i];
    assert forall i :: 0 <= i < 2 ==> k[4 + i] == mo[i] && k[6 + i] == da[i];
    assert forall i :: 0 <= i < 2 ==> k[9 + i] == h[i] && k[11 + i] == mi[i] && k[13 + i] == s[i];
  }

  /** Two well-formed time stamps with the same duplicate key are the same time stamp: cleanup
      treats two renamed reports as duplicates exactly when their stamps agree. */
  lemma ShortNameKeyInjective(a: Rename.Timestamp, b: Rename.Timestamp)
    requires Rename.WellFormed(a) && Rename.WellFormed(b)
    requires Cleanup.DuplicateKey(Rename.ShortName(a)) == Cleanup.DuplicateKey(Rename.ShortName(b))
    ensures a == b
  {
    ShortNameKey(a);
    ShortNameKey(b);
    KeyLayout(a.year, a.month, a.day, a.hour, a.minute, a.second);
    KeyLayout(b.year, b.month, b.day, b.hour, b.minute, b.second);
  }

  /** The groups of the name an upload gets: the year as `String` writes it, the other fields
      padded to two digits. */
  function UploadStamp(t: Uploads.LocalTime): Rename.Timestamp {
    Rename.Timestamp(IntString(t.year), PadStart2(Decimal(t.month + 1)), PadStart2(Decimal(t.day)),
                     PadStart2(Decimal(t.hours)), PadStart2(Decimal(t.minutes)), PadStart2(Decimal(t.seconds)))
  }

  /** `gct-<date>-<time>.json` with the date and time made of three fields each is the short
      name of those six fields. */
  lemma ShortNameOfFields(y: string, mo: string, da: string, h: string, mi: string, s: string)
    ensures "gct-" + (y + mo + da + "-" + (h + mi + s)) + ".json" == Rename.ShortName(Rename.Timestamp(y, mo, da, h, mi, s))
  {
    assert "gct-" + (y + mo + da + "-" + (h + mi + s)) + ".json" == "gct-" + y + mo + da + "-" + h + mi + s + ".json";
  }

  /** process-new-uploads builds the same name as generateShortName does from those groups, so
      the rename script never touches it. */
  lemma UploadNameIsShortName(t: Uploads.LocalTime)
    ensures Uploads.UploadName(t) == Rename.ShortName(UploadStamp(t))
    ensures !Rename.IsCandidate(Uploads.UploadName(t))
  {
    var s := UploadStamp(t);
    ShortNameOfFields(s.year, s.month, s.day, s.hour, s.minute, s.second);
  }

  /** With a four-digit year the groups are well formed, so the new name carries the duplicate
      key of the report's local time. */
  lemma UploadNameKey(t: Uploads.LocalTime)
    requires 1000 <= t.year <= 9999
    ensures Rename.WellFormed(UploadStamp(t))
    ensures var s := UploadStamp(t);
            Cleanup.DuplicateKey(Uploads.UploadName(t)) == Some(s.year + s.month + s.day + "-" + s.hour + s.minute + s.second)
  {
    TwoDigitField(t.month + 1);
    TwoDigitField(t.day);
    TwoDigitField(t.hours);
    TwoDigitField(t.minutes);
    TwoDigitField(t.seconds);
    UploadNameIsShortName(t);
    ShortNameKey(UploadStamp(t));
  }

  // ---------------------------------------------------------------------------------------
  // The file make-100-percent writes

  /** What `Date.prototype.toISOString` returns for a year from 0 to 9999:
      `YYYY-MM-DDTHH:mm:ss.sssZ`. */
  predicate IsIsoString(s: string) {
    && |s| == 24
    && AllDigits(s[..4]) && s[4] == '-'
    && AllDigits(s[5..7]) && s[7] == '-'
    && AllDigits(s[8..10]) && s[10] == 'T'
    && AllDigits(s[11..13]) && s[13] == ':'
    && AllDigits(s[14..16]) && s[16] == ':'
    && AllDigits(s[17..19]) && s[19] == '.'
    && AllDigits(s[20..23]) && s[23] == 'Z'
  }

  /** The prefix of the output name holds no digit, so no time stamp match starts inside it. */
  lemma PrefixHasNoDigit()
    ensures |ForcePass.OutputPrefix| == 39
    ensures forall i :: 0 <= i < 39 ==> !IsDigit(ForcePass.OutputPrefix[i])
  {
  }

  /** The sanitized ISO string is exactly the window parseTimestamp looks for. */
  lemma SanitizedIsoWindow(iso: string)
    requires IsIsoString(iso)
    ensures Rename.IsIsoWindow(ForcePass.Sanitize(iso))
    ensures Rename.WindowGroups(ForcePass.Sanitize(iso)) ==
              Rename.Timestamp(iso[..4], iso[5..7], iso[8..10], iso[11..13], iso[14..16], iso[17..19])
  {
    ForcePass.SanitizeSpec(iso);
    var w := ForcePass.Sanitize(iso);
    assert forall i :: 0 <= i < 24 && IsDigit(iso[i]) ==> w[i] == iso[i];
    assert w[..4] == iso[..4] && w[5..7] == iso[5..7] && w[8..10] == iso[8..10];
    assert w[11..13] == iso[11..13] && w[14..16] == iso[14..16] && w[17..19] == iso[17..19];
    assert w[20..23] == iso[20..23];
  }

  /** The first match is at `p` when there is one there and none before it. */
  lemma {:induction false} FirstWindowAt(s: string, w: nat, P: string -> bool, from: nat, p: nat)
    requires from <= p && MatchAt(s, w, P, p)
    requires forall q: nat :: from <= q < p ==> !MatchAt(s, w, P, q)
    decreases p - from
    ensures FirstWindow(s, w, P, from) == Some(p)
  {
    if from < p {
      assert !MatchAt(s, w, P, from);
      FirstWindowAt(s, w, P, from + 1, p);
    }
  }

  /** Where the prefix, the sanitized time and the extension sit in the output name. */
  lemma ForcePassNameLayout(iso: string)
    requires |iso| == 24
    ensures var name := ForcePass.ForcePassName(iso);
            && |name| == 68 && name[..39] == ForcePass.OutputPrefix
            && name[39..63] == ForcePass.Sanitize(iso) && name[63..] == ".json"
  {
    ForcePass.SanitizeSpec(iso);
    PrefixHasNoDigit();
    var name := ForcePass.ForcePassName(iso);
    assert name == ForcePass.OutputPrefix + ForcePass.Sanitize(iso) + ".json";
  }

  /** The output name is a rename candidate and not an upload. */
  lemma ForcePassNameFilters(iso: string)
    requires |iso| == 24
    ensures Rename.IsCandidate(ForcePass.ForcePassName(iso)) && !Uploads.IsUpload(ForcePass.ForcePassName(iso))
  {
    var name := ForcePass.ForcePassName(iso);
    ForcePassNameLayout(iso);
    assert name[0] == 'G' by {
      assert name[..39][0] == 'G';
    }
    assert name[..4] != "gct-" by {
      assert name[..4][0] == name[0];
    }
    assert name[..7] != "report-" by {
      assert name[..7][0] == name[0];
    }
    assert EndsWith(name, ".json") by {
      assert name[|name| - 5..] == name[63..];
    }
  }

  /** The first time stamp match in the output name is the sanitized ISO string after the
      prefix. */
  lemma ForcePassNameMatch(iso: string)
    requires IsIsoString(iso)
    ensures FirstWindow(ForcePass.ForcePassName(iso), 24, Rename.IsIsoWindow, 0) == Some(39)
    ensures ForcePass.ForcePassName(iso)[39..63] == ForcePass.Sanitize(iso)
  {
    var name := ForcePass.ForcePassName(iso);
    ForcePassNameLayout(iso);
    SanitizedIsoWindow(iso);
    assert MatchAt(name, 24, Rename.IsIsoWindow, 39);
    NoMatchInPrefix(name);
    FirstWindowAt(name, 24, Rename.IsIsoWindow, 0, 39);
  }

  /** No time stamp window starts inside the digit-free prefix. */
  lemma NoMatchInPrefix(name: string)
    requires |name| >= 39 && name[..39] == ForcePass.OutputPrefix
    ensures forall q: nat :: q < 39 ==> !MatchAt(name, 24, Rename.IsIsoWindow, q)
  {
    PrefixHasNoDigit();
    forall q: nat | q < 39 ensures !MatchAt(name, 24, Rename.IsIsoWindow, q) {
      assert name[q] == name[..39][q];
      if q + 24 <= |name| {
        assert name[q..q + 24][0] == name[q];
      }
    }
  }

  /** The 100% report is not an upload, but the rename script takes it up and finds in its name
      the (UTC) date and time it was written at: the groups of the ISO string. */
  lemma ForcePassNameRenamed(iso: string)
    requires IsIsoString(iso)
    ensures Rename.IsCandidate(ForcePass.ForcePassName(iso)) && !Uploads.IsUpload(ForcePass.ForcePassName(iso))
    ensures Rename.ParseTimestamp(ForcePass.ForcePassName(iso)) ==
              Some(Rename.Timestamp(iso[..4], iso[5..7], iso[8..10], iso[11..13], iso[14..16], iso[17..19]))
  {
    ForcePassNameFilters(iso);
    ForcePassNameMatch(iso);
    SanitizedIsoWindow(iso);
  }

  // ---------------------------------------------------------------------------------------
  // The rename log

  /** The log the rename script writes is recognised by process-new-uploads as a rename log,
      should it come back as an upload: its first batch has a non-empty `timestamp` and an
      array of `renames`. Under its own name it is neither an upload nor a canonical report. */
  lemma RenameLogRecognised(runTime: string, es: seq<Rename.RenameEntry>, later: seq<Json>,
                            parseDate: Json -> Uploads.LocalTime, now: Uploads.LocalTime)
    requires runTime != ""
    ensures Uploads.Classify(Parsed(JArr([Rename.BatchJson(runTime, es)] + later)), parseDate, now) == Uploads.RenameLog
    ensures !Uploads.IsUpload(Rename.LogName) && !Cleanup.IsReportName(Rename.LogName)
  {
    assert Rename.LogName[0] == '.';
    assert Rename.LogName[..4][0] == '.' && Rename.LogName[..7][0] == '.';
  }

  // ---------------------------------------------------------------------------------------
  // Forcing a report and cleaning it up

  /** The transform keeps each feature and scenario null exactly when it was. */
  lemma ForcedNulls(features: seq<Json>)
    ensures forall i :: 0 <= i < |features| ==> ForcePass.ForceFeatures(features)[i].JNull? == features[i].JNull?
    ensures forall i, j :: 0 <= i < |features| && 0 <= j < |ScenariosOf(features[i])| ==>
              ForcePass.ForceScenarios(ScenariosOf(features[i]))[j].JNull? == ScenariosOf(features[i])[j].JNull?
  {
  }

  /** Cleanup judges a 100% report empty exactly when it judges the original empty: forcing
      changes step results, never the features, scenarios and steps that isEmptyReport counts. */
  lemma ForcedEmptiness(data: Json)
    requires data.JArr?
    ensures Cleanup.EmptyContent(Parsed(ForcePass.ForcePassed(data))) == Cleanup.EmptyContent(Parsed(data))
  {
    var a := data.items;
    var b := ForcePass.ForceFeatures(a);
    ForcePass.ForcedOutline(a);
    ForcedNulls(a);
    assert Cleanup.SameOutline(a, b);
    Cleanup.EmptinessIgnoresSteps(a, b);
  }

  lemma {:induction false} ScenarioTotalIsStepCount(scenarios: seq<Json>)
    ensures ForcePass.TallyScenarios(scenarios).total == Cleanup.StepTotalIn(scenarios)
  {
    if scenarios != [] {
      ScenarioTotalIsStepCount(scenarios[..|scenarios| - 1]);
      ForcePass.StepsBounded(StepsOf(scenarios[|scenarios| - 1]));
    }
  }

  /** The `totalSteps` make-100-percent reports is the step count isEmptyReport computes. */
  lemma {:induction false} TotalIsStepCount(features: seq<Json>)
    ensures ForcePass.TallyFeatures(features).total == Cleanup.StepTotal(features)
  {
    if features != [] {
      TotalIsStepCount(features[..|features| - 1]);
      ScenarioTotalIsStepCount(ScenariosOf(features[|features| - 1]));
    }
  }

  /** A report make-100-percent can process and finds to have no step is one cleanup would
      delete as empty, and so is the 100% report made of it. */
  lemma NoStepsIsEmpty(files: Files, arg: Option<string>, isoNow: string, outSize: nat)
    requires ForcePass.ForceEffect(files, arg, isoNow, outSize).1.Created?
    requires ForcePass.ForceEffect(files, arg, isoNow, outSize).1.counts.total == 0
    ensures Cleanup.EmptyContent(files[arg.value].content)
    ensures var name := ForcePass.ForceEffect(files, arg, isoNow, outSize).1.name;
            Cleanup.EmptyContent(ForcePass.ForceEffect(files, arg, isoNow, outSize).0[name].content)
  {
    var data := files[arg.value].content.value;
    TotalIsStepCount(data.items);
    ForcedEmptiness(data);
  }
}
