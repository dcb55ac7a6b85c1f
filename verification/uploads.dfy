/** process-new-uploads.js: each `report-*.json` uploaded through the viewer is either left
    alone (not a report), deleted (a misplaced rename log) or renamed to its canonical
    `gct-YYYYMMDD-HHMMSS.json` name, taken from the local time of its first scenario. */
module Uploads {
  import opened Options
  import opened Text
  import opened Json
  import opened Storage

  // ---------------------------------------------------------------------------------------
  // Local time and the canonical name built from it

  /** What the local-time getters of a `Date` return; `month` is `getMonth()`, counted from 0. */
  datatype Clock = Clock(year: int, month: int, day: int, hours: int, minutes: int, seconds: int)

  predicate ValidClock(c: Clock) {
    0 <= c.month <= 11 && 1 <= c.day <= 31 && 0 <= c.hours <= 23 && 0 <= c.minutes <= 59 && 0 <= c.seconds <= 59
  }

  /** A valid `Date` read in local time (an `Invalid Date` is not modelled). */
  type LocalTime = c: Clock | ValidClock(c) witness Clock(1970, 0, 1, 0, 0, 0)

  /** The new file name: the year as `String` gives it, then month (1-based), day, hours,
      minutes and seconds each padded to two digits. */
  function UploadName(t: LocalTime): (name: string)
    ensures StartsWith(name, "gct-") && EndsWith(name, ".json")
  {
    var date := IntString(t.year) + PadStart2(Decimal(t.month + 1)) + PadStart2(Decimal(t.day));
    var time := PadStart2(Decimal(t.hours)) + PadStart2(Decimal(t.minutes)) + PadStart2(Decimal(t.seconds));
    Affixes("gct-", date + "-" + time, ".json");
    "gct-" + (date + "-" + time) + ".json"
  }

  /** For a four-digit year the name has the canonical layout, and its two-digit fields hold
      the month (1-based), day, hours, minutes and seconds. */
  lemma UploadNameLayout(t: LocalTime)
    requires 1000 <= t.year <= 9999
    ensures var name := UploadName(t);
            && |name| == 24 && name[..4] == "gct-" && name[12] == '-' && name[19..] == ".json"
            && AllDigits(name[4..8]) && AllDigits(name[8..10]) && AllDigits(name[10..12])
            && AllDigits(name[13..15]) && AllDigits(name[15..17]) && AllDigits(name[17..19])
            && DecimalValue(name[4..8]) == t.year
            && DecimalValue(name[8..10]) == t.month + 1 && DecimalValue(name[10..12]) == t.day
            && DecimalValue(name[13..15]) == t.hours && DecimalValue(name[15..17]) == t.minutes
            && DecimalValue(name[17..19]) == t.seconds
  {
    var y, mo, da := IntString(t.year), PadStart2(Decimal(t.month + 1)), PadStart2(Decimal(t.day));
    var h, mi, s := PadStart2(Decimal(t.hours)), PadStart2(Decimal(t.minutes)), PadStart2(Decimal(t.seconds));
    TwoDigitField(t.month + 1);
    TwoDigitField(t.day);
    TwoDigitField(t.hours);
    TwoDigitField(t.minutes);
    TwoDigitField(t.seconds);
    NameLayout(y, mo, da, h, mi, s);
  }

  /** Where the six fields sit in `gct-<date>-<time>.json`. */
  lemma NameLayout(y: string, mo: string, da: string, h: string, mi: string, s: string)
    requires |y| == 4 && |mo| == 2 && |da| == 2 && |h| == 2 && |mi| == 2 && |s| == 2
    ensures var name := "gct-" + (y + mo + da + "-" + (h + mi + s)) + ".json";
            && |name| == 24 && name[..4] == "gct-" && name[12] == '-' && name[19..] == ".json"
            && name[4..8] == y && name[8..10] == mo && name[10..12] == da
            && name[13..15] == h && name[15..17] == mi && name[17..19] == s
  {
    var name := "gct-" + (y + mo + da + "-" + (h + mi + s)) + ".json";
    assert forall i :: 0 <= i < 4 ==> name[4 + i] == y[i];
    assert forall i :: 0 <= i < 2 ==> name[8 + i] == mo[i] && name[10 + i] == da[i];
    assert forall i :: 0 <= i < 2 ==> name[13 + i] == h[i] && name[15 + i] == mi[i] && name[17 + i] == s[i];
  }

  lemma DigitsConcat3(a: string, b: string, c: string)
    requires AllDigits(a) && AllDigits(b) && AllDigits(c)
    ensures AllDigits(a + b + c)
  {
  }

  // ---------------------------------------------------------------------------------------
  // Which files are processed and what happens to each

  /** The top-level filter. */
  predicate IsUpload(f: string) {
    StartsWith(f, "report-") && EndsWith(f, ".json") && !Contains(f, "100percent")
  }

  function Uploads(listing: seq<string>): (us: seq<string>)
    ensures forall f :: f in us <==> f in listing && IsUpload(f)
    ensures IsSubseqOf(us, listing)
    ensures Distinct(listing) ==> Distinct(us)
  {
    if listing == [] then []
    else
      var rest := Uploads(listing[1..]);
      if IsUpload(listing[0]) then
        var us := [listing[0]] + rest;
        assert forall i :: 0 < i < |us| ==> us[i] == rest[i - 1];
        us
      else rest
  }

  /** An uploaded name is never a canonical one. */
  lemma UploadIsNotCanonical(f: string)
    requires IsUpload(f)
    ensures !StartsWith(f, "gct-")
  {
    assert f[1] == 'e';
  }

  /** The verdict of the `try` block on a file that could be read. */
  datatype Verdict = NotReport | Throws | RenameLog | Report(when: LocalTime)

  /** The time of `data[0].elements[0].start_timestamp` when that chain is truthy, else the
      current time. `parseDate` is `new Date(...)` read in local time. */
  function StartTime(first: Json, parseDate: Json -> LocalTime, now: LocalTime): LocalTime {
    var elements := Field(first, "elements");
    if Truthy(elements) && Truthy(Index0(elements.value)) &&
       Truthy(Field(Index0(elements.value).value, "start_timestamp"))
    then parseDate(Field(Index0(elements.value).value, "start_timestamp").value)
    else now
  }

  /** JSON that does not parse throws; so does reading `.timestamp` of a null first element.
      Anything but a non-empty array is not a report; a first element with truthy `timestamp`
      and `renames` is a rename log. */
  function Classify(content: Content, parseDate: Json -> LocalTime, now: LocalTime): (v: Verdict)
    requires !content.ReadFailed?
    ensures v == NotReport <==> content.Parsed? && !(content.value.JArr? && |content.value.items| > 0)
    ensures v == Throws <==> content.Malformed? || (content.Parsed? && content.value.JArr? &&
                                                   |content.value.items| > 0 && content.value.items[0].JNull?)
    ensures v == RenameLog <==> content.Parsed? && content.value.JArr? && |content.value.items| > 0 &&
                                !content.value.items[0].JNull? &&
                                Truthy(Field(content.value.items[0], "timestamp")) &&
                                Truthy(Field(content.value.items[0], "renames"))
    ensures v.Report? ==> v.when == StartTime(content.value.items[0], parseDate, now)
  {
    match content
    case Malformed => Throws
    case Parsed(data) =>
      if !data.JArr? || |data.items| == 0 then NotReport
      else
        var first := data.items[0];
        if first.JNull? then Throws
        else if Truthy(Field(first, "timestamp")) && Truthy(Field(first, "renames")) then RenameLog
        else Report(StartTime(first, parseDate, now))
  }

  /** Only the first element of a report decides what happens to the file. */
  lemma ClassifyReadsFirstOnly(a: seq<Json>, b: seq<Json>, parseDate: Json -> LocalTime, now: LocalTime)
    requires |a| > 0 && |b| > 0 && a[0] == b[0]
    ensures Classify(Parsed(JArr(a)), parseDate, now) == Classify(Parsed(JArr(b)), parseDate, now)
  {
  }

  /** What the turn of upload `u` does, seeing the directory `files`. A failing `unlinkSync`
      or `renameSync` is caught and leaves the file where it is; a failing `readFileSync` is
      outside the `try` and ends the script. */
  datatype Fate = Stays | Removed | MovedTo(target: string) | Unreadable

  function FateOf(files: Files, u: string, fails: set<string>,
                  parseDate: Json -> LocalTime, now: string -> LocalTime): (f: Fate)
    ensures f.MovedTo? ==> StartsWith(f.target, "gct-")
  {
    if u !in files || files[u].content.ReadFailed? then Unreadable
    else match Classify(files[u].content, parseDate, now(u))
      case RenameLog => if u in fails then Stays else Removed
      case Report(t) => if u in fails then Stays else MovedTo(UploadName(t))
      case _ => Stays
  }

  /** The directory after the turn of `u`; None when the read throws. There is no existence
      check: `renameSync` replaces a file that already has the new name. */
  function UploadStep(files: Files, u: string, fails: set<string>,
                      parseDate: Json -> LocalTime, now: string -> LocalTime): Option<Files>
  {
    match FateOf(files, u, fails, parseDate, now)
    case Unreadable => None
    case Stays => Some(files)
    case Removed => Some(files - {u})
    case MovedTo(target) => Some((files - {u})[target := files[u]])
  }

  /** The directory the loop leaves behind, and whether it ended by throwing. */
  datatype UploadRun = UploadRun(files: Files, crashed: bool)

  /** The `forEach` over the uploads, in listing order. */
  function UploadLoop(files: Files, us: seq<string>, fails: set<string>,
                      parseDate: Json -> LocalTime, now: string -> LocalTime): UploadRun
    decreases |us|
  {
    if us == [] then UploadRun(files, false)
    else match UploadStep(files, us[0], fails, parseDate, now)
      case None => UploadRun(files, true)
      case Some(next) => UploadLoop(next, us[1..], fails, parseDate, now)
  }

  /** The uploads still to come see the same entries for themselves as the directory had. */
  lemma StepKeepsLater(files: Files, us: seq<string>, fails: set<string>,
                       parseDate: Json -> LocalTime, now: string -> LocalTime)
    requires us != [] && Distinct(us) && NonCanonical(us)
    requires UploadStep(files, us[0], fails, parseDate, now).Some?
    ensures var next := UploadStep(files, us[0], fails, parseDate, now).value;
            forall v :: v in us[1..] ==>
              (v in next <==> v in files) && (v in files ==> next[v] == files[v]) &&
              FateOf(next, v, fails, parseDate, now) == FateOf(files, v, fails, parseDate, now)
  {
    var next := UploadStep(files, us[0], fails, parseDate, now).value;
    forall v | v in us[1..]
      ensures (v in next <==> v in files) && (v in files ==> next[v] == files[v])
    {
      assert v != us[0];
      assert v in us;
    }
  }

  /** The read at the top of the loop is the only uncaught failure: the loop ends by throwing
      exactly when one of the uploads cannot be read. */
  lemma {:induction false} CrashesOnlyOnRead(files: Files, us: seq<string>, fails: set<string>,
                                             parseDate: Json -> LocalTime, now: string -> LocalTime)
    requires Distinct(us) && NonCanonical(us)
    decreases |us|
    ensures UploadLoop(files, us, fails, parseDate, now).crashed <==>
              exists u :: u in us && FateOf(files, u, fails, parseDate, now).Unreadable?
  {
    if us != [] && UploadStep(files, us[0], fails, parseDate, now).Some? {
      var next := UploadStep(files, us[0], fails, parseDate, now).value;
      StepKeepsLater(files, us, fails, parseDate, now);
      assert Distinct(us[1..]) && NonCanonical(us[1..]);
      CrashesOnlyOnRead(next, us[1..], fails, parseDate, now);
      assert forall u :: u in us <==> u == us[0] || u in us[1..];
    }
  }

  /** An upload that is not a report, throws in the `try`, or whose unlink or rename fails
      stays in place unchanged. */
  lemma {:induction false} StaysPut(files: Files, us: seq<string>, fails: set<string>,
                                    parseDate: Json -> LocalTime, now: string -> LocalTime)
    requires Distinct(us) && NonCanonical(us)
    decreases |us|
    ensures forall u :: u in us && FateOf(files, u, fails, parseDate, now).Stays? ==>
              u in UploadLoop(files, us, fails, parseDate, now).files &&
              UploadLoop(files, us, fails, parseDate, now).files[u] == files[u]
  {
    if us != [] && UploadStep(files, us[0], fails, parseDate, now).Some? {
      var next := UploadStep(files, us[0], fails, parseDate, now).value;
      StepKeepsLater(files, us, fails, parseDate, now);
      assert Distinct(us[1..]) && NonCanonical(us[1..]);
      StaysPut(next, us[1..], fails, parseDate, now);
      Untouched(next, us[1..], fails, parseDate, now);
      if FateOf(files, us[0], fails, parseDate, now).Stays? {
        assert us[0] !in us[1..];
        assert forall v :: v in us[1..] ==> FateOf(next, v, fails, parseDate, now) != MovedTo(us[0]);
      }
    }
  }

  /** Nothing else changes: a file that is not an upload and that no upload is renamed to
      keeps its content. */
  lemma {:induction false} Untouched(files: Files, us: seq<string>, fails: set<string>,
                                     parseDate: Json -> LocalTime, now: string -> LocalTime)
    requires Distinct(us) && NonCanonical(us)
    decreases |us|
    ensures forall n ::
              (n in files && n !in us && forall u :: u in us ==> FateOf(files, u, fails, parseDate, now) != MovedTo(n)) ==>
              n in UploadLoop(files, us, fails, parseDate, now).files &&
              UploadLoop(files, us, fails, parseDate, now).files[n] == files[n]
  {
    if us != [] && UploadStep(files, us[0], fails, parseDate, now).Some? {
      var next := UploadStep(files, us[0], fails, parseDate, now).value;
      StepKeepsLater(files, us, fails, parseDate, now);
      assert Distinct(us[1..]) && NonCanonical(us[1..]);
      Untouched(next, us[1..], fails, parseDate, now);
      forall n | n in files && n !in us &&
                 (forall u :: u in us ==> FateOf(files, u, fails, parseDate, now) != MovedTo(n))
        ensures n in next && next[n] == files[n]
        ensures n !in us[1..] && forall u :: u in us[1..] ==> FateOf(next, u, fails, parseDate, now) != MovedTo(n)
      {
        assert us[0] in us;
        assert forall u :: u in us[1..] ==> u in us;
      }
    }
  }

  /** Without a crash, every rename log and every renamed report is gone from its old name. */
  lemma {:induction false} LeaversGone(files: Files, us: seq<string>, fails: set<string>,
                                       parseDate: Json -> LocalTime, now: string -> LocalTime)
    requires Distinct(us) && NonCanonical(us)
    decreases |us|
    ensures !UploadLoop(files, us, fails, parseDate, now).crashed ==>
              forall u :: u in us && (FateOf(files, u, fails, parseDate, now).Removed? ||
                                      FateOf(files, u, fails, parseDate, now).MovedTo?) ==>
                u !in UploadLoop(files, us, fails, parseDate, now).files
  {
    if us != [] && UploadStep(files, us[0], fails, parseDate, now).Some? {
      var next := UploadStep(files, us[0], fails, parseDate, now).value;
      StepKeepsLater(files, us, fails, parseDate, now);
      assert Distinct(us[1..]) && NonCanonical(us[1..]);
      LeaversGone(next, us[1..], fails, parseDate, now);
      var fate := FateOf(files, us[0], fails, parseDate, now);
      if fate.Removed? || fate.MovedTo? {
        assert us[0] !in next;
        GoneStaysGone(next, us[1..], fails, parseDate, now, us[0]);
      }
    }
  }

  /** A name that is neither an upload still to come nor in canonical form does not reappear. */
  lemma {:induction false} GoneStaysGone(files: Files, us: seq<string>, fails: set<string>,
                                         parseDate: Json -> LocalTime, now: string -> LocalTime, n: string)
    requires n !in files && n !in us && !StartsWith(n, "gct-")
    decreases |us|
    ensures n !in UploadLoop(files, us, fails, parseDate, now).files
  {
    if us != [] && UploadStep(files, us[0], fails, parseDate, now).Some? {
      assert n !in us[1..] by { assert forall u :: u in us[1..] ==> u in us; }
      GoneStaysGone(UploadStep(files, us[0], fails, parseDate, now).value, us[1..], fails, parseDate, now, n);
    }
  }

  /** When every upload can be read, a renamed report ends up under its new name with its content, even
      when a file of that name existed before, provided no later upload is renamed to the same
      name (the last one wins). */
  lemma {:induction false} LastRenameWins(files: Files, us: seq<string>, fails: set<string>,
                                          parseDate: Json -> LocalTime, now: string -> LocalTime, k: nat)
    requires Distinct(us) && NonCanonical(us)
    requires forall j :: 0 <= j < |us| ==> !FateOf(files, us[j], fails, parseDate, now).Unreadable?
    requires k < |us| && FateOf(files, us[k], fails, parseDate, now).MovedTo?
    requires forall j :: k < j < |us| ==> FateOf(files, us[j], fails, parseDate, now) != FateOf(files, us[k], fails, parseDate, now)
    decreases k
    ensures FateOf(files, us[k], fails, parseDate, now).target in UploadLoop(files, us, fails, parseDate, now).files
    ensures UploadLoop(files, us, fails, parseDate, now).files[FateOf(files, us[k], fails, parseDate, now).target] == files[us[k]]
  {
    var next := UploadStep(files, us[0], fails, parseDate, now).value;
    if k == 0 {
      FirstRenameLands(files, us, fails, parseDate, now);
    } else {
      StepKeepsLater(files, us, fails, parseDate, now);
      assert Distinct(us[1..]) && NonCanonical(us[1..]);
      assert us[k] == us[1..][k - 1] && us[k] in us[1..];
      forall j | k - 1 < j < |us[1..]|
        ensures FateOf(next, us[1..][j], fails, parseDate, now) != FateOf(next, us[1..][k - 1], fails, parseDate, now)
      {
        assert us[1..][j] == us[j + 1] && us[j + 1] in us[1..];
      }
      forall j | 0 <= j < |us[1..]|
        ensures !FateOf(next, us[1..][j], fails, parseDate, now).Unreadable?
      {
        assert us[1..][j] == us[j + 1] && us[j + 1] in us[1..];
      }
      LastRenameWins(next, us[1..], fails, parseDate, now, k - 1);
    }
  }

  /** The first upload's rename, when no later upload takes the same name, survives the loop. */
  lemma FirstRenameLands(files: Files, us: seq<string>, fails: set<string>,
                         parseDate: Json -> LocalTime, now: string -> LocalTime)
    requires us != [] && Distinct(us) && NonCanonical(us)
    requires UploadStep(files, us[0], fails, parseDate, now).Some?
    ensures var fate := FateOf(files, us[0], fails, parseDate, now);
            var next := UploadStep(files, us[0], fails, parseDate, now).value;
            fate.MovedTo? &&
            (forall j :: 0 < j < |us| ==> FateOf(files, us[j], fails, parseDate, now) != fate) ==>
              fate.target in UploadLoop(next, us[1..], fails, parseDate, now).files &&
              UploadLoop(next, us[1..], fails, parseDate, now).files[fate.target] == files[us[0]]
  {
    var fate := FateOf(files, us[0], fails, parseDate, now);
    var next := UploadStep(files, us[0], fails, parseDate, now).value;
    if fate.MovedTo? && (forall j :: 0 < j < |us| ==> FateOf(files, us[j], fails, parseDate, now) != fate) {
      StepKeepsLater(files, us, fails, parseDate, now);
      assert Distinct(us[1..]) && NonCanonical(us[1..]);
      Untouched(next, us[1..], fails, parseDate, now);
      assert fate.target !in us[1..];
      forall u | u in us[1..] ensures FateOf(next, u, fails, parseDate, now) != MovedTo(fate.target) {
        var j :| 0 <= j < |us[1..]| && us[1..][j] == u;
        assert us[j + 1] == u;
      }
    }
  }

  /** What the script returns to the shell: no uploads (exit 0 at once), all processed, or an
      uncaught read error. */
  /** The only names the loop adds are the new names of renamed reports. */
  lemma {:induction false} NewNamesAreTargets(files: Files, us: seq<string>, fails: set<string>,
                                              parseDate: Json -> LocalTime, now: string -> LocalTime)
    requires Distinct(us) && NonCanonical(us)
    decreases |us|
    ensures forall n :: n in UploadLoop(files, us, fails, parseDate, now).files && n !in files ==>
              exists u :: u in us && FateOf(files, u, fails, parseDate, now) == MovedTo(n)
  {
    if us != [] && UploadStep(files, us[0], fails, parseDate, now).Some? {
      var next := UploadStep(files, us[0], fails, parseDate, now).value;
      StepKeepsLater(files, us, fails, parseDate, now);
      assert Distinct(us[1..]) && NonCanonical(us[1..]);
      NewNamesAreTargets(next, us[1..], fails, parseDate, now);
      forall n | n in UploadLoop(files, us, fails, parseDate, now).files && n !in files
        ensures exists u :: u in us && FateOf(files, u, fails, parseDate, now) == MovedTo(n)
      {
        assert us[0] in us;
        if n !in next {
          var u :| u in us[1..] && FateOf(next, u, fails, parseDate, now) == MovedTo(n);
          assert u in us;
        }
      }
    }
  }

  datatype UploadOutcome = NoUploads | Processed | ReadCrash

  function UploadEffect(files: Files, listing: seq<string>, fails: set<string>,
                        parseDate: Json -> LocalTime, now: string -> LocalTime): (r: (Files, UploadOutcome))
    ensures Uploads(listing) == [] ==> r == (files, NoUploads)
  {
    var us := Uploads(listing);
    if us == [] then (files, NoUploads)
    else
      var run := UploadLoop(files, us, fails, parseDate, now);
      (run.files, if run.crashed then ReadCrash else Processed)
  }

  /** The script on a listing of its directory: it exits at once exactly when there are no
      uploads and throws exactly when an upload cannot be read; files that are not uploads and
      that no upload is renamed to keep their content; without a throw, rename logs and renamed
      reports are gone from their old names. */
  lemma UploadEffectSummary(files: Files, listing: seq<string>, fails: set<string>,
                            parseDate: Json -> LocalTime, now: string -> LocalTime)
    requires Enumerates(listing, files)
    ensures var (after, outcome) := UploadEffect(files, listing, fails, parseDate, now);
            var us := Uploads(listing);
            && (outcome == NoUploads <==> us == [])
            && (outcome == ReadCrash <==> exists u :: u in us && FateOf(files, u, fails, parseDate, now).Unreadable?)
            && (forall n :: n in files && !IsUpload(n) && (forall u :: u in us ==> FateOf(files, u, fails, parseDate, now) != MovedTo(n)) ==>
                  n in after && after[n] == files[n])
            && (outcome == Processed ==>
                  forall u :: (u in us && (FateOf(files, u, fails, parseDate, now).Removed? ||
                                           FateOf(files, u, fails, parseDate, now).MovedTo?)) ==> u !in after)
            && (forall n :: n in after && n !in files ==>
                  exists u :: u in us && FateOf(files, u, fails, parseDate, now) == MovedTo(n))
            && ((forall n :: n in listing ==> !IsUpload(n)) ==> after == files && outcome == NoUploads)
  {
    var us := Uploads(listing);
    forall u | u in us ensures !StartsWith(u, "gct-") {
      UploadIsNotCanonical(u);
    }
    assert Distinct(us) && NonCanonical(us);
    if us != [] {
      CrashesOnlyOnRead(files, us, fails, parseDate, now);
      Untouched(files, us, fails, parseDate, now);
      LeaversGone(files, us, fails, parseDate, now);
      NewNamesAreTargets(files, us, fails, parseDate, now);
      assert us[0] in us;
    }
  }

  // ---------------------------------------------------------------------------------------
  // The imperative script

  /** The body of the `forEach` for one upload; false when its read throws. */
  method ProcessUpload(d: Directory, u: string, fails: set<string>,
                       parseDate: Json -> LocalTime, now: string -> LocalTime) returns (readOk: bool)
    modifies d
    ensures readOk == UploadStep(old(d.files), u, fails, parseDate, now).Some?
    ensures d.files == if readOk then UploadStep(old(d.files), u, fails, parseDate, now).value else old(d.files)
  {
    if u !in d.files || d.files[u].content.ReadFailed? {
      return false;
    }
    readOk := true;
    var verdict := Classify(d.files[u].content, parseDate, now(u));
    match verdict {
      case RenameLog =>
        var ok := d.Unlink(u, fails);
      case Report(t) =>
        var ok := d.Rename(u, UploadName(t), fails);
      case _ =>
    }
  }

  /** The script: process the uploads of the listing one after the other. */
  method ProcessNewUploads(d: Directory, listing: seq<string>, fails: set<string>,
                           parseDate: Json -> LocalTime, now: string -> LocalTime) returns (outcome: UploadOutcome)
    requires Enumerates(listing, d.files)
    modifies d
    ensures (d.files, outcome) == UploadEffect(old(d.files), listing, fails, parseDate, now)
  {
    var us := Uploads(listing);
    if |us| == 0 {
      return NoUploads;
    }
    ghost var run := UploadLoop(d.files, us, fails, parseDate, now);
    var i := 0;
    while i < |us|
      invariant 0 <= i <= |us|
      invariant UploadLoop(d.files, us[i..], fails, parseDate, now) == run
    {
      assert us[i..][0] == us[i] && us[i..][1..] == us[i + 1..];
      var ok := ProcessUpload(d, us[i], fails, parseDate, now);
      if !ok {
        return ReadCrash;
      }
      i := i + 1;
    }
    outcome := Processed;
  }
}
