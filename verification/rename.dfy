/** rename-to-short-format.js: give every long report name that embeds an ISO time stamp its
    canonical `gct-YYYYMMDD-HHMMSS.json` name, never overwriting a file, and append one batch
    describing the renames to `.rename-log.json`. */
module Rename {
  import opened Options
  import opened Text
  import opened Json
  import opened Storage

  // ---------------------------------------------------------------------------------------
  // parseTimestamp and generateShortName

  /** The six capture groups parseTimestamp returns. */
  datatype Timestamp = Timestamp(year: string, month: string, day: string,
                                 hour: string, minute: string, second: string)

  /** Decimal digit groups of widths 4, 2, 2, 2, 2, 2: what the capture groups can hold. */
  predicate WellFormed(t: Timestamp) {
    && |t.year| == 4 && AllDigits(t.year)
    && |t.month| == 2 && AllDigits(t.month)
    && |t.day| == 2 && AllDigits(t.day)
    && |t.hour| == 2 && AllDigits(t.hour)
    && |t.minute| == 2 && AllDigits(t.minute)
    && |t.second| == 2 && AllDigits(t.second)
  }

  /** `/(\d{4})-(\d{2})-(\d{2})T(\d{2})-(\d{2})-(\d{2})-\d{3}Z/` on a 24-character window. */
  predicate IsIsoWindow(w: string) {
    && |w| == 24
    && AllDigits(w[..4]) && w[4] == '-'
    && AllDigits(w[5..7]) && w[7] == '-'
    && AllDigits(w[8..10]) && w[10] == 'T'
    && AllDigits(w[11..13]) && w[13] == '-'
    && AllDigits(w[14..16]) && w[16] == '-'
    && AllDigits(w[17..19]) && w[19] == '-'
    && AllDigits(w[20..23]) && w[23] == 'Z'
  }

  /** The capture groups of a matching window (the milliseconds are not captured). */
  function WindowGroups(w: string): Timestamp
    requires |w| == 24
  {
    Timestamp(w[..4], w[5..7], w[8..10], w[11..13], w[14..16], w[17..19])
  }

  /** parseTimestamp: the groups of the first match anywhere in the name, None (null) when the
      name holds no match. */
  function ParseTimestamp(filename: string): (t: Option<Timestamp>)
    ensures t.Some? ==> WellFormed(t.value)
  {
    match FirstWindow(filename, 24, IsIsoWindow, 0)
    case None => None
    case Some(p) =>
      FirstWindowIsLeftmost(filename, 24, IsIsoWindow, 0);
      var w := filename[p..p + 24];
      assert IsIsoWindow(w);
      Some(WindowGroups(w))
  }

  /** The groups come from the leftmost match, and there are none exactly when no window of
      the name matches. */
  lemma ParseTimestampIsFirstMatch(filename: string)
    ensures ParseTimestamp(filename).None? <==> forall p: nat :: !MatchAt(filename, 24, IsIsoWindow, p)
    ensures ParseTimestamp(filename).Some? ==> exists p: nat ::
              && MatchAt(filename, 24, IsIsoWindow, p)
              && (forall q: nat :: q < p ==> !MatchAt(filename, 24, IsIsoWindow, q))
              && ParseTimestamp(filename).value == WindowGroups(filename[p..p + 24])
  {
    FirstWindowIsLeftmost(filename, 24, IsIsoWindow, 0);
  }

  /** generateShortName */
  function ShortName(t: Timestamp): (name: string)
    ensures StartsWith(name, "gct-") && EndsWith(name, ".json")
  {
    var name := "gct-" + t.year + t.month + t.day + "-" + t.hour + t.minute + t.second + ".json";
    assert name[..4] == "gct-";
    assert name[|name| - 5..] == ".json";
    name
  }

  /** For well-formed groups every group sits at a fixed place of the 24-character name. */
  lemma ShortNameLayout(t: Timestamp)
    requires WellFormed(t)
    ensures |ShortName(t)| == 24
    ensures ShortName(t)[..4] == "gct-" && ShortName(t)[12] == '-' && ShortName(t)[19..] == ".json"
    ensures ShortName(t)[4..8] == t.year && ShortName(t)[8..10] == t.month && ShortName(t)[10..12] == t.day
    ensures ShortName(t)[13..15] == t.hour && ShortName(t)[15..17] == t.minute && ShortName(t)[17..19] == t.second
  {
  }

  /** Different well-formed time stamps get different short names. */
  lemma ShortNameInjective(a: Timestamp, b: Timestamp)
    requires WellFormed(a) && WellFormed(b) && ShortName(a) == ShortName(b)
    ensures a == b
  {
    ShortNameLayout(a);
    ShortNameLayout(b);
  }

  // ---------------------------------------------------------------------------------------
  // renameReports

  /** The filter of renameReports: JSON files other than the index, the statistics and the
      names already in canonical form. */
  predicate IsCandidate(f: string) {
    EndsWith(f, ".json") && f != "index.json" && f != "stats.json" && !StartsWith(f, "gct-")
  }

  function Candidates(listing: seq<string>): (cs: seq<string>)
    ensures forall f :: f in cs <==> f in listing && IsCandidate(f)
    ensures IsSubseqOf(cs, listing)
    ensures Distinct(listing) ==> Distinct(cs)
  {
    if listing == [] then []
    else
      var rest := Candidates(listing[1..]);
      if IsCandidate(listing[0]) then
        var cs := [listing[0]] + rest;
        assert forall i :: 0 < i < |cs| ==> cs[i] == rest[i - 1];
        cs
      else rest
  }

  /** One `{old, new}` entry of the rename log. */
  datatype RenameEntry = RenameEntry(oldName: string, newName: string)

  function Sources(es: seq<RenameEntry>): set<string> {
    set e | e in es :: e.oldName
  }

  function Targets(es: seq<RenameEntry>): set<string> {
    set e | e in es :: e.newName
  }

  /** Where one candidate goes when its turn comes with the directory holding `files`: None
      (skipped) without a time stamp, when the short name already exists, or when
      `renameSync` fails. */
  function RenameTarget(files: Files, c: string, fails: set<string>): (t: Option<string>)
    ensures t.Some? ==> c in files && c !in fails && t.value !in files
    ensures t.Some? ==> ParseTimestamp(c).Some? && t.value == ShortName(ParseTimestamp(c).value)
  {
    match ParseTimestamp(c)
    case None => None
    case Some(ts) =>
      var target := ShortName(ts);
      if target in files then None
      else if c in files && c !in fails then Some(target)
      else None
  }

  /** The log entries, the skip count and the directory a run of the loop leaves behind. */
  datatype RenameRun = RenameRun(entries: seq<RenameEntry>, skipped: nat, files: Files)

  /** The `forEach` of renameReports over the candidates, in order, each looking at the
      directory as the earlier ones left it. */
  function RenameLoop(files: Files, cs: seq<string>, fails: set<string>): RenameRun
    decreases |cs|
  {
    if cs == [] then RenameRun([], 0, files)
    else
      match RenameTarget(files, cs[0], fails)
      case None =>
        var r := RenameLoop(files, cs[1..], fails);
        r.(skipped := r.skipped + 1)
      case Some(target) =>
        var r := RenameLoop((files - {cs[0]})[target := files[cs[0]]], cs[1..], fails);
        r.(entries := [RenameEntry(cs[0], target)] + r.entries)
  }

  /** Every candidate is either renamed or skipped. */
  lemma {:induction false} RenameCounts(files: Files, cs: seq<string>, fails: set<string>)
    decreases |cs|
    ensures |RenameLoop(files, cs, fails).entries| + RenameLoop(files, cs, fails).skipped == |cs|
  {
    if cs != [] {
      match RenameTarget(files, cs[0], fails)
      case None =>
        RenameCounts(files, cs[1..], fails);
      case Some(target) =>
        RenameCounts((files - {cs[0]})[target := files[cs[0]]], cs[1..], fails);
    }
  }

  /** Each log entry moves a candidate whose rename did not fail to the short name of its
      time stamp. */
  lemma {:induction false} EntriesSound(files: Files, cs: seq<string>, fails: set<string>)
    decreases |cs|
    ensures forall e :: e in RenameLoop(files, cs, fails).entries ==>
              && e.oldName in cs && e.oldName !in fails
              && ParseTimestamp(e.oldName).Some?
              && e.newName == ShortName(ParseTimestamp(e.oldName).value)
  {
    if cs != [] {
      match RenameTarget(files, cs[0], fails)
      case None =>
        EntriesSound(files, cs[1..], fails);
      case Some(target) =>
        EntriesSound((files - {cs[0]})[target := files[cs[0]]], cs[1..], fails);
    }
  }

  /** Nothing else changes: a file that is not renamed stays, with the same content. */
  lemma {:induction false} KeepsOthers(files: Files, cs: seq<string>, fails: set<string>)
    decreases |cs|
    ensures forall n :: n in files && n !in Sources(RenameLoop(files, cs, fails).entries) ==>
              n in RenameLoop(files, cs, fails).files && RenameLoop(files, cs, fails).files[n] == files[n]
  {
    if cs != [] {
      match RenameTarget(files, cs[0], fails)
      case None =>
        KeepsOthers(files, cs[1..], fails);
      case Some(target) =>
        var next := (files - {cs[0]})[target := files[cs[0]]];
        KeepsOthers(next, cs[1..], fails);
        var es := RenameLoop(files, cs, fails).entries;
        assert es == [RenameEntry(cs[0], target)] + RenameLoop(next, cs[1..], fails).entries;
        assert Sources(es) == {cs[0]} + Sources(RenameLoop(next, cs[1..], fails).entries);
    }
  }

  /** The loop creates no name other than a logged short name. */
  lemma {:induction false} OnlyTargetsAppear(files: Files, cs: seq<string>, fails: set<string>)
    decreases |cs|
    ensures forall n :: n in RenameLoop(files, cs, fails).files ==>
              n in files || n in Targets(RenameLoop(files, cs, fails).entries)
  {
    if cs != [] {
      match RenameTarget(files, cs[0], fails)
      case None =>
        OnlyTargetsAppear(files, cs[1..], fails);
      case Some(target) =>
        var next := (files - {cs[0]})[target := files[cs[0]]];
        OnlyTargetsAppear(next, cs[1..], fails);
        var es := RenameLoop(files, cs, fails).entries;
        assert es == [RenameEntry(cs[0], target)] + RenameLoop(next, cs[1..], fails).entries;
        assert Targets(es) == {target} + Targets(RenameLoop(next, cs[1..], fails).entries);
    }
  }

  /** No overwrite: every short name was free before the run, and it ends up holding exactly
      the content of the file renamed to it. */
  lemma {:induction false} MovedIntact(files: Files, cs: seq<string>, fails: set<string>)
    requires NonCanonical(cs)
    decreases |cs|
    ensures forall e :: e in RenameLoop(files, cs, fails).entries ==>
              && e.oldName in files && e.newName !in files
              && e.newName in RenameLoop(files, cs, fails).files
              && RenameLoop(files, cs, fails).files[e.newName] == files[e.oldName]
  {
    if cs != [] {
      match RenameTarget(files, cs[0], fails)
      case None =>
        MovedIntact(files, cs[1..], fails);
      case Some(target) =>
        var next := (files - {cs[0]})[target := files[cs[0]]];
        var rest := RenameLoop(next, cs[1..], fails);
        MovedIntact(next, cs[1..], fails);
        KeepsOthers(next, cs[1..], fails);
        EntriesSound(next, cs[1..], fails);
        assert target !in Sources(rest.entries);
        forall e | e in RenameLoop(files, cs, fails).entries
          ensures && e.oldName in files && e.newName !in files
                  && e.newName in RenameLoop(files, cs, fails).files
                  && RenameLoop(files, cs, fails).files[e.newName] == files[e.oldName]
        {
          if e != RenameEntry(cs[0], target) {
            assert e in rest.entries;
            assert e.oldName != target && e.newName != cs[0];
          }
        }
    }
  }

  /** A renamed file is gone from its old name. */
  lemma {:induction false} SourcesGone(files: Files, cs: seq<string>, fails: set<string>)
    requires NonCanonical(cs)
    decreases |cs|
    ensures forall n :: n in Sources(RenameLoop(files, cs, fails).entries) ==> n !in RenameLoop(files, cs, fails).files
  {
    if cs != [] {
      match RenameTarget(files, cs[0], fails)
      case None =>
        SourcesGone(files, cs[1..], fails);
      case Some(target) =>
        var next := (files - {cs[0]})[target := files[cs[0]]];
        var rest := RenameLoop(next, cs[1..], fails);
        SourcesGone(next, cs[1..], fails);
        OnlyTargetsAppear(next, cs[1..], fails);
        EntriesSound(next, cs[1..], fails);
        assert cs[0] !in Targets(rest.entries);
        assert Sources(RenameLoop(files, cs, fails).entries) == {cs[0]} + Sources(rest.entries);
    }
  }

  /** No name is renamed twice and no two files get the same short name. */
  lemma {:induction false} OneToOne(files: Files, cs: seq<string>, fails: set<string>)
    requires NonCanonical(cs)
    decreases |cs|
    ensures forall i, j :: 0 <= i < j < |RenameLoop(files, cs, fails).entries| ==>
              && RenameLoop(files, cs, fails).entries[i].oldName != RenameLoop(files, cs, fails).entries[j].oldName
              && RenameLoop(files, cs, fails).entries[i].newName != RenameLoop(files, cs, fails).entries[j].newName
  {
    if cs != [] {
      match RenameTarget(files, cs[0], fails)
      case None =>
        OneToOne(files, cs[1..], fails);
      case Some(target) =>
        var next := (files - {cs[0]})[target := files[cs[0]]];
        var rest := RenameLoop(next, cs[1..], fails);
        OneToOne(next, cs[1..], fails);
        MovedIntact(next, cs[1..], fails);
        var es := RenameLoop(files, cs, fails).entries;
        assert es == [RenameEntry(cs[0], target)] + rest.entries;
        forall j | 0 < j < |es|
          ensures es[0].oldName != es[j].oldName && es[0].newName != es[j].newName
        {
          assert es[j] in rest.entries;
        }
    }
  }

  /** A candidate whose turn finds nothing to do leaves the loop unchanged. */
  lemma {:induction false} NothingToRename(files: Files, cs: seq<string>, fails: set<string>)
    requires forall c :: c in cs ==> RenameTarget(files, c, fails).None?
    decreases |cs|
    ensures RenameLoop(files, cs, fails) == RenameRun([], |cs|, files)
  {
    if cs != [] {
      NothingToRename(files, cs[1..], fails);
    }
  }

  /** A candidate of the listing that was neither renamed nor failed had a short name that is
      taken once the run is over (by a file that was there or one renamed earlier). */
  lemma {:induction false} Settled(files: Files, cs: seq<string>, fails: set<string>)
    requires NonCanonical(cs) && Distinct(cs)
    requires forall c :: c in cs ==> c in files
    decreases |cs|
    ensures forall c ::
              (c in cs && c !in fails && c !in Sources(RenameLoop(files, cs, fails).entries) && ParseTimestamp(c).Some?) ==>
              ShortName(ParseTimestamp(c).value) in RenameLoop(files, cs, fails).files
  {
    if cs != [] {
      var c0 := cs[0];
      var t0 := RenameTarget(files, c0, fails);
      var next := if t0.None? then files else (files - {c0})[t0.value := files[c0]];
      var rest := RenameLoop(next, cs[1..], fails);
      assert forall c :: c in cs[1..] ==> c != c0 && c in cs;
      Settled(next, cs[1..], fails);
      KeepsOthers(next, cs[1..], fails);
      EntriesSound(next, cs[1..], fails);
      if t0.None? {
        assert RenameLoop(files, cs, fails).entries == rest.entries;
        if c0 !in fails && ParseTimestamp(c0).Some? {
          var target := ShortName(ParseTimestamp(c0).value);
          assert target in files;
          assert target !in Sources(rest.entries);
        }
      } else {
        assert RenameLoop(files, cs, fails).entries == [RenameEntry(c0, t0.value)] + rest.entries;
      }
    }
  }

  // ---------------------------------------------------------------------------------------
  // The rename log

  const LogName := ".rename-log.json"

  function EntryJson(e: RenameEntry): Json {
    JObj(map["old" := JStr(e.oldName), "new" := JStr(e.newName)])
  }

  function EntriesJson(es: seq<RenameEntry>): (js: seq<Json>)
    ensures |js| == |es| && forall i :: 0 <= i < |es| ==> js[i] == EntryJson(es[i])
  {
    if es == [] then [] else EntriesJson(es[..|es| - 1]) + [EntryJson(es[|es| - 1])]
  }

  /** `{timestamp, renames}`: the batch one run appends, stamped with the run's clock value. */
  function BatchJson(runTime: string, es: seq<RenameEntry>): Json {
    JObj(map["timestamp" := JStr(runTime), "renames" := JArr(EntriesJson(es))])
  }

  /** The batches already logged: none when there is no log file, the parsed array when there
      is one. None where reading, `JSON.parse` or `.push` on a non-array throws. */
  function PriorLog(files: Files): (prior: Option<seq<Json>>)
    ensures LogName !in files ==> prior == Some([])
    ensures LogName in files ==> (prior.Some? <==> files[LogName].content.Parsed? && files[LogName].content.value.JArr?)
  {
    if LogName !in files then Some([])
    else match files[LogName].content
      case Parsed(JArr(batches)) => Some(batches)
      case _ => None
  }

  /** The log file has no time stamp of its own and is never a short name, so the loop leaves
      it alone. */
  lemma LogUntouched(files: Files, cs: seq<string>, fails: set<string>)
    ensures LogName in RenameLoop(files, cs, fails).files <==> LogName in files
    ensures LogName in files ==> RenameLoop(files, cs, fails).files[LogName] == files[LogName]
    ensures PriorLog(RenameLoop(files, cs, fails).files) == PriorLog(files)
  {
    assert ParseTimestamp(LogName).None?;
    assert LogName[0] != "gct-"[0];
    EntriesSound(files, cs, fails);
    KeepsOthers(files, cs, fails);
    OnlyTargetsAppear(files, cs, fails);
    assert LogName !in Sources(RenameLoop(files, cs, fails).entries);
    assert LogName !in Targets(RenameLoop(files, cs, fails).entries);
  }

  /** What renameReports returns; Crashed when it throws on an unreadable log. */
  datatype RenameOutcome = Finished(renamed: nat, skipped: nat) | Crashed

  /** renameReports as a whole: the directory afterwards and the outcome. The log is written
      only when some file was renamed. */
  function RenameEffect(files: Files, listing: seq<string>, fails: set<string>,
                        runTime: string, logSize: nat): (Files, RenameOutcome)
  {
    var run := RenameLoop(files, Candidates(listing), fails);
    if run.entries == [] then (run.files, Finished(0, run.skipped))
    else match PriorLog(run.files)
      case None => (run.files, Crashed)
      case Some(prior) =>
        (run.files[LogName := FileEntry(logSize, Parsed(JArr(prior + [BatchJson(runTime, run.entries)])))],
         Finished(|run.entries|, run.skipped))
  }

  /** The returned counts add up to the number of candidates, `renamed` counts the logged
      entries, and the log gains one batch after the earlier ones exactly when a file was
      renamed. */
  lemma RenameReportsCounts(files: Files, listing: seq<string>, fails: set<string>, runTime: string, logSize: nat)
    ensures RenameEffect(files, listing, fails, runTime, logSize).1.Finished? ==>
              RenameEffect(files, listing, fails, runTime, logSize).1.renamed +
              RenameEffect(files, listing, fails, runTime, logSize).1.skipped == |Candidates(listing)|
    ensures RenameEffect(files, listing, fails, runTime, logSize).1.Finished? ==>
              RenameEffect(files, listing, fails, runTime, logSize).1.renamed ==
              |RenameLoop(files, Candidates(listing), fails).entries|
    ensures RenameEffect(files, listing, fails, runTime, logSize).1.Crashed? <==>
              RenameLoop(files, Candidates(listing), fails).entries != [] && PriorLog(files).None?
  {
    RenameCounts(files, Candidates(listing), fails);
    LogUntouched(files, Candidates(listing), fails);
  }

  lemma RenameReportsLog(files: Files, listing: seq<string>, fails: set<string>, runTime: string, logSize: nat)
    ensures var after := RenameEffect(files, listing, fails, runTime, logSize).0;
            var es := RenameLoop(files, Candidates(listing), fails).entries;
            && (es == [] ==> (LogName in after <==> LogName in files) && (LogName in files ==> after[LogName] == files[LogName]))
            && (es != [] && PriorLog(files).Some? ==>
                  LogName in after && after[LogName].content == Parsed(JArr(PriorLog(files).value + [BatchJson(runTime, es)])))
  {
    LogUntouched(files, Candidates(listing), fails);
  }

  /** When a file was renamed, a missing log is created holding the one new batch, and a log
      that is a JSON array gets the new batch after its earlier items. */
  lemma RenameLogWritten(files: Files, listing: seq<string>, fails: set<string>, runTime: string, logSize: nat)
    requires RenameLoop(files, Candidates(listing), fails).entries != []
    ensures var after := RenameEffect(files, listing, fails, runTime, logSize).0;
            var es := RenameLoop(files, Candidates(listing), fails).entries;
            && (LogName !in files ==>
                  LogName in after && after[LogName].content == Parsed(JArr([BatchJson(runTime, es)])))
            && (LogName in files && files[LogName].content.Parsed? && files[LogName].content.value.JArr? ==>
                  LogName in after &&
                  after[LogName].content == Parsed(JArr(files[LogName].content.value.items + [BatchJson(runTime, es)])))
  {
    LogUntouched(files, Candidates(listing), fails);
    var es := RenameLoop(files, Candidates(listing), fails).entries;
    assert [] + [BatchJson(runTime, es)] == [BatchJson(runTime, es)];
  }

  /** After a run without I/O failures every candidate left in the directory has nothing to
      do: it has no time stamp or its short name is taken. */
  lemma SettledRun(files: Files, listing: seq<string>)
    requires Enumerates(listing, files)
    ensures forall c :: c in RenameLoop(files, Candidates(listing), {}).files && IsCandidate(c) ==>
              ParseTimestamp(c).None? ||
              ShortName(ParseTimestamp(c).value) in RenameLoop(files, Candidates(listing), {}).files
  {
    var cs := Candidates(listing);
    var run := RenameLoop(files, cs, {});
    assert NonCanonical(cs);
    Settled(files, cs, {});
    OnlyTargetsAppear(files, cs, {});
    EntriesSound(files, cs, {});
    SourcesGone(files, cs, {});
    forall c | c in run.files && IsCandidate(c) && ParseTimestamp(c).Some?
      ensures ShortName(ParseTimestamp(c).value) in run.files
    {
      assert c !in Targets(run.entries);
      assert c in cs;
    }
  }

  /** A second run straight after one without I/O failures renames nothing, writes no log
      batch and leaves the directory as it is. */
  lemma SecondRunRenamesNothing(files: Files, listing: seq<string>, runTime: string, logSize: nat,
                                listing2: seq<string>, runTime2: string, logSize2: nat)
    requires Enumerates(listing, files)
    requires Enumerates(listing2, RenameEffect(files, listing, {}, runTime, logSize).0)
    ensures var after := RenameEffect(files, listing, {}, runTime, logSize).0;
            RenameEffect(after, listing2, {}, runTime2, logSize2) == (after, Finished(0, |Candidates(listing2)|))
  {
    var run := RenameLoop(files, Candidates(listing), {});
    var after := RenameEffect(files, listing, {}, runTime, logSize).0;
    assert after.Keys == run.files.Keys || after.Keys == run.files.Keys + {LogName};
    SettledRun(files, listing);
    assert ParseTimestamp(LogName).None?;
    forall c | c in Candidates(listing2) ensures RenameTarget(after, c, {}).None? {
      if c != LogName {
        assert c in run.files;
      }
    }
    NothingToRename(after, Candidates(listing2), {});
  }

  // ---------------------------------------------------------------------------------------
  // The imperative script

  /** The `forEach` of renameReports over the candidates. */
  method RenameAll(d: Directory, cs: seq<string>, fails: set<string>)
      returns (renamed: nat, skipped: nat, entries: seq<RenameEntry>)
    modifies d
    ensures entries == RenameLoop(old(d.files), cs, fails).entries && renamed == |entries|
    ensures skipped == RenameLoop(old(d.files), cs, fails).skipped
    ensures d.files == RenameLoop(old(d.files), cs, fails).files
  {
    ghost var start := RenameLoop(d.files, cs, fails);
    renamed, skipped, entries := 0, 0, [];
    var i := 0;
    while i < |cs|
      invariant 0 <= i <= |cs|
      invariant renamed == |entries|
      invariant entries + RenameLoop(d.files, cs[i..], fails).entries == start.entries
      invariant skipped + RenameLoop(d.files, cs[i..], fails).skipped == start.skipped
      invariant RenameLoop(d.files, cs[i..], fails).files == start.files
    {
      ghost var here := d.files;
      var c := cs[i];
      assert cs[i..][0] == c && cs[i..][1..] == cs[i + 1..];
      var ts := ParseTimestamp(c);
      if ts.None? {
        skipped := skipped + 1;
      } else {
        var target := ShortName(ts.value);
        if target in d.files {
          skipped := skipped + 1;
        } else {
          var ok := d.Rename(c, target, fails);
          if ok {
            renamed := renamed + 1;
            entries := entries + [RenameEntry(c, target)];
            assert RenameLoop(here, cs[i..], fails).entries == [RenameEntry(c, target)] + RenameLoop(d.files, cs[i + 1..], fails).entries;
          } else {
            skipped := skipped + 1;
          }
        }
      }
      i := i + 1;
    }
  }

  /** renameReports: rename the candidates of the listing, then log the batch if any file was
      renamed. */
  method RenameReports(d: Directory, listing: seq<string>, fails: set<string>, runTime: string, logSize: nat)
      returns (outcome: RenameOutcome)
    requires Enumerates(listing, d.files)
    modifies d
    ensures (d.files, outcome) == RenameEffect(old(d.files), listing, fails, runTime, logSize)
  {
    var cs := Candidates(listing);
    var renamed, skipped, entries := RenameAll(d, cs, fails);
    if |entries| == 0 {
      return Finished(0, skipped);
    }
    var prior := PriorLog(d.files);
    if prior.None? {
      return Crashed;
    }
    d.Write(LogName, FileEntry(logSize, Parsed(JArr(prior.value + [BatchJson(runTime, entries)]))));
    outcome := Finished(renamed, skipped);
  }
}
