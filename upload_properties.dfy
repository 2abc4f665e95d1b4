/** What `File.Upload` guarantees, stated about its specification `Upload.UploadSpec` (which
    `Upload.File.Upload` is proved to follow) and about the pieces it is built from. */
module UploadProperties {
  import opened Wrappers
  import opened Host
  import opened Times
  import opened Upload
  import Strconv
  import Strings
  import Seqs
  import Paths
  import Utils

  // ---------------------------------------------------------------------------------
  // The order of the checks

  /** The save path is checked before anything else, then the form name; either failure
      leaves the uploader untouched and asks nothing of the request, the disk or the clock. */
  lemma PreconditionsFirst(multipartFile: bool, cfg: Config, o: Oracle, v: View)
    ensures cfg.savePath == "" ==>
      UploadSpec(multipartFile, cfg, o, v) == Step(Some(Sentinel(FileSavePathCannotBeEmpty)), v)
    ensures cfg.savePath != "" && cfg.formName == "" ==>
      UploadSpec(multipartFile, cfg, o, v) == Step(Some(Sentinel(UploadFormNameCannotBeEmpty)), v)
  {
  }

  /** A request whose form cannot be read fails with `UploadFaildErr` and changes nothing but
      the one read, on both paths; `UploadErr` is left as it was. */
  lemma UnreadableForm(multipartFile: bool, cfg: Config, o: Oracle, v: View)
    requires cfg.savePath != "" && cfg.formName != ""
    requires if multipartFile then o.request.form.None? else FirstFile(o.request, cfg.formName).None?
    ensures UploadSpec(multipartFile, cfg, o, v)
         == Step(Some(Sentinel(UploadFaildErr)), v.(log := v.log.(formReads := v.log.formReads + 1)))
  {
  }

  // ---------------------------------------------------------------------------------
  // The single-file path

  /** The single-file gate: with a file present, the upload is rejected exactly when the
      size or the extension fails; the size is reported first; a rejected file is neither
      saved nor examined, but its name has already been generated (one clock read and eight
      random draws) and `UploadErr` holds the bare sentinel that is returned. */
  lemma SingleGate(cfg: Config, o: Oracle, v: View, h: Header)
    requires cfg.savePath != "" && cfg.formName != ""
    requires FirstFile(o.request, cfg.formName) == Some(h)
    ensures var s := UploadSpec(false, cfg, o, v);
      (Rejects(s.err) <==> !SizeIs(cfg, h.size) || !ExtAllowed(cfg, Paths.Ext(h.filename))) &&
      (!SizeIs(cfg, h.size) ==> s.err == Some(Sentinel(FileSizeExceedsLimitErr))) &&
      (SizeIs(cfg, h.size) && !ExtAllowed(cfg, Paths.Ext(h.filename)) ==>
         s.err == Some(Sentinel(UnsupportedfileExtErr))) &&
      (Rejects(s.err) ==>
         s.view == View(v.info.(uploadErr := s.err), v.multiInfo,
                        v.log.(formReads := v.log.formReads + 1, clockReads := v.log.clockReads + 1,
                               randCalls := v.log.randCalls + SuffixLength)))
  {
  }

  /** The stored name of an accepted single file: Unix seconds of the first clock read, the
      eight drawn runes, then the original extension, placed directly inside the save path. */
  function SinglePath(cfg: Config, o: Oracle, h: Header, log: Log): string
  {
    RealPath(cfg, GeneratedName(Unix(o.clock(log.clockReads)), Suffix(o, log.randCalls), h.filename))
  }

  /** A single file that passes both checks and is saved and examined without error: the
      result is nil; `Info` takes the path, the size, the name and the modification time the
      stat reports and the creation time of a second clock read; `UploadErr` and `MultiInfo`
      keep their old values; exactly one save and one stat are made, of that path. */
  lemma SingleSuccess(cfg: Config, o: Oracle, v: View, h: Header)
    requires cfg.savePath != "" && cfg.formName != ""
    requires FirstFile(o.request, cfg.formName) == Some(h)
    requires SizeIs(cfg, h.size) && ExtAllowed(cfg, Paths.Ext(h.filename))
    requires o.saveReply(|v.log.saves|).None? && o.statReply(|v.log.stats|).StatOk?
    ensures var p := SinglePath(cfg, o, h, v.log);
      var st := o.statReply(|v.log.stats|);
      UploadSpec(false, cfg, o, v) ==
        Step(None, View(
          v.info.(realPath := p, size := st.size, fileName := st.name,
                  createTime := o.clock(v.log.clockReads + 1), lastModifyTime := st.modTime),
          v.multiInfo,
          v.log.(formReads := v.log.formReads + 1, clockReads := v.log.clockReads + 2,
                 randCalls := v.log.randCalls + SuffixLength,
                 saves := v.log.saves + [SaveCall(h, p)], stats := v.log.stats + [p])))
  {
  }

  /** A single file that passes both checks but whose save fails, or whose save succeeds
      and whose stat fails: the host's error is returned unchanged; `Info`, `UploadErr`
      included, and `MultiInfo` keep their old values; the name has been generated and the
      save attempted at the stored path, which has been examined only if the save succeeded. */
  lemma SingleIoFailure(cfg: Config, o: Oracle, v: View, h: Header)
    requires cfg.savePath != "" && cfg.formName != ""
    requires FirstFile(o.request, cfg.formName) == Some(h)
    requires SizeIs(cfg, h.size) && ExtAllowed(cfg, Paths.Ext(h.filename))
    requires StoreFailsAt(o, v.log, 0)
    ensures var p := SinglePath(cfg, o, h, v.log);
      var attempted := v.log.(formReads := v.log.formReads + 1, clockReads := v.log.clockReads + 1,
                              randCalls := v.log.randCalls + SuffixLength,
                              saves := v.log.saves + [SaveCall(h, p)]);
      UploadSpec(false, cfg, o, v) ==
        Step(Some(Io(FailureAt(o, v.log, 0))), View(
          v.info, v.multiInfo,
          if o.saveReply(|v.log.saves|).Some? then attempted else attempted.(stats := v.log.stats + [p])))
  {
  }

  // ---------------------------------------------------------------------------------
  // Generated names

  /** The suffix has eight ASCII letters and digits. */
  lemma SuffixIsAlphanumeric(o: Oracle, start: nat)
    ensures |Suffix(o, start)| == SuffixLength
    ensures forall i :: 0 <= i < |Suffix(o, start)| ==> Utils.IsAlnum(Suffix(o, start)[i])
  {
    var pool := Utils.EffectivePool([]);
    var draws := Draws(o, start, SuffixLength, |pool|);
    DrawsBounded(o, start, SuffixLength, |pool|);
    Utils.DrawnFromPool(pool, draws);
    Utils.EmptyPoolIsAlphanumeric([]);
  }

  /** A generated name keeps the extension of the original file name. */
  lemma GeneratedNameKeepsExt(unix: int, suffix: string, original: string)
    requires forall i :: 0 <= i < |suffix| ==> Utils.IsAlnum(suffix[i])
    ensures Paths.Ext(GeneratedName(unix, suffix, original)) == Paths.Ext(original)
  {
    var stem := Strconv.FormatInt(unix) + suffix;
    var e := Paths.Ext(original);
    Strconv.FormatIntShape(unix);
    Paths.ExtShape(original);
    assert GeneratedName(unix, suffix, original) == stem + e;
    if e != [] {
      Paths.ExtOfDotted(stem, e);
    } else {
      assert forall i :: 0 <= i < |suffix| ==> suffix[i] != '.';
      assert '.' !in stem;
      Paths.ExtOfDotless(stem);
      assert stem + e == stem;
    }
  }

  /** A generated name is a single path element: it is non-empty, has no '/', and is never
      "." or "..", because it starts with a digit or a minus sign. */
  lemma GeneratedNameIsElement(unix: int, suffix: string, original: string)
    requires forall i :: 0 <= i < |suffix| ==> Utils.IsAlnum(suffix[i])
    ensures Paths.IsElement(GeneratedName(unix, suffix, original))
  {
    var n := GeneratedName(unix, suffix, original);
    var f := Strconv.FormatInt(unix);
    Strconv.FormatIntShape(unix);
    assert n[0] == f[0];
    assert f[0] == '-' || Strconv.IsDigit(f[0]);
    assert forall i :: 0 <= i < |suffix| ==> suffix[i] != '/';
    assert '/' !in suffix;
    Paths.ExtShape(original);
  }

  /** Every generated name lands directly inside the cleaned save path, whatever the client
      called the file. */
  lemma StoredInsideSavePath(cfg: Config, o: Oracle, unix: int, start: nat, original: string)
    requires cfg.savePath != ""
    ensures var name := GeneratedName(unix, Suffix(o, start), original);
      RealPath(cfg, name) == Paths.InDir(Paths.Clean(cfg.savePath), name) &&
      Paths.Ext(name) == Paths.Ext(original)
  {
    SuffixIsAlphanumeric(o, start);
    var name := GeneratedName(unix, Suffix(o, start), original);
    GeneratedNameIsElement(unix, Suffix(o, start), original);
    GeneratedNameKeepsExt(unix, Suffix(o, start), original);
    Paths.JoinInDir(cfg.savePath, name);
  }

  /** `path.Ext` never yields the default entries "xlsx" and "xls", which lack the dot. */
  lemma ExtIsNeverUndotted(name: string)
    ensures Paths.Ext(name) != "xlsx" && Paths.Ext(name) != "xls"
  {
    Paths.ExtShape(name);
  }

  /** Without a configured list, a file named like a spreadsheet, ".xlsx" or ".xls", is
      refused, and so is every other file whose extension names a spreadsheet. */
  lemma SpreadsheetsRefused(cfg: Config, stem: string)
    requires |cfg.enableExtName| == 0
    ensures !ExtAllowed(cfg, Paths.Ext(stem + ".xlsx")) && !ExtAllowed(cfg, Paths.Ext(stem + ".xls"))
  {
    Paths.ExtOfDotted(stem, ".xlsx");
    Paths.ExtOfDotted(stem, ".xls");
  }

  // ---------------------------------------------------------------------------------
  // The batch validation pass

  /** One validation step leaves the error alone for a clean header and otherwise replaces
      it by that header's violation. */
  lemma ValidateStepIsViolation(cfg: Config, h: Header, err: Option<Error>)
    ensures ValidateStep(cfg, h, err) == if Violation(cfg, h).Some? then Violation(cfg, h) else err
  {
  }

  lemma {:induction false} ValidatePassSnoc(cfg: Config, hs: seq<Header>, h: Header, err: Option<Error>)
    ensures ValidatePass(cfg, hs + [h], err) == ValidateStep(cfg, h, ValidatePass(cfg, hs, err))
    decreases |hs|
  {
    if hs == [] {
      assert hs + [h] == [h];
      assert [h][1..] == [];
    } else {
      assert (hs + [h])[0] == hs[0];
      assert (hs + [h])[1..] == hs[1..] + [h];
      ValidatePassSnoc(cfg, hs[1..], h, ValidateStep(cfg, hs[0], err));
    }
  }

  lemma ViolationsSnoc(cfg: Config, hs: seq<Header>, h: Header)
    ensures Violations(cfg, hs + [h]) == Violations(cfg, hs) + [Violation(cfg, h)]
  {
    var a, b := Violations(cfg, hs + [h]), Violations(cfg, hs) + [Violation(cfg, h)];
    forall i | 0 <= i < |a| ensures a[i] == b[i] {
      assert (hs + [h])[i] == if i < |hs| then hs[i] else h;
    }
  }

  /** After the validation loop `UploadErr` holds the violation of the last offending header,
      or, when no header offends, whatever it held before the loop. */
  lemma {:induction false} ValidatePassIsLastViolation(cfg: Config, hs: seq<Header>, err: Option<Error>)
    ensures ValidatePass(cfg, hs, err) == if LastViolation(cfg, hs).Some? then LastViolation(cfg, hs) else err
    decreases |hs|
  {
    if hs != [] {
      var init := hs[..|hs| - 1];
      var last := hs[|hs| - 1];
      assert init + [last] == hs;
      ValidatePassSnoc(cfg, init, last, err);
      ValidatePassIsLastViolation(cfg, init, err);
      ValidateStepIsViolation(cfg, last, ValidatePass(cfg, init, err));
      ViolationsSnoc(cfg, init, last);
      var vs := Violations(cfg, init);
      assert (vs + [Violation(cfg, last)])[..|vs|] == vs;
    }
  }

  /** `LastSome` finds nothing exactly when every entry is absent. */
  lemma {:induction false} LastSomeNone(vs: seq<Option<Error>>)
    ensures LastSome(vs).None? <==> forall i :: 0 <= i < |vs| ==> vs[i].None?
    decreases |vs|
  {
    if vs != [] {
      var n := |vs| - 1;
      LastSomeNone(vs[..n]);
      assert forall i :: 0 <= i < n ==> vs[..n][i] == vs[i];
    }
  }

  /** What `LastSome` finds is an entry after which every entry is absent. */
  lemma {:induction false} LastSomeIndex(vs: seq<Option<Error>>)
    requires LastSome(vs).Some?
    ensures exists i :: 0 <= i < |vs| && LastSome(vs) == vs[i] && forall j :: i < j < |vs| ==> vs[j].None?
    decreases |vs|
  {
    var n := |vs| - 1;
    if vs[n].Some? {
      assert LastSome(vs) == vs[n];
    } else {
      var init := vs[..n];
      LastSomeIndex(init);
      var i :| 0 <= i < n && LastSome(init) == init[i] && forall j :: i < j < n ==> init[j].None?;
      assert LastSome(vs) == vs[i] && forall j :: i < j < |vs| ==> vs[j].None? by {
        assert init[i] == vs[i];
        assert forall j :: i < j < n ==> init[j] == vs[j];
      }
    }
  }

  /** An entry after which every entry is absent is what `LastSome` finds. */
  lemma {:induction false} LastSomeFrom(vs: seq<Option<Error>>, i: nat)
    requires i < |vs| && vs[i].Some? && forall j :: i < j < |vs| ==> vs[j].None?
    ensures LastSome(vs) == vs[i]
    decreases |vs|
  {
    var n := |vs| - 1;
    if i < n {
      var init := vs[..n];
      assert forall j :: i <= j < n ==> init[j] == vs[j];
      LastSomeFrom(init, i);
    }
  }

  /** `LastViolation` finds no violation exactly when no header offends. */
  lemma LastViolationNone(cfg: Config, hs: seq<Header>)
    ensures LastViolation(cfg, hs).None? <==> forall i :: 0 <= i < |hs| ==> Violation(cfg, hs[i]).None?
  {
    var vs := Violations(cfg, hs);
    LastSomeNone(vs);
    assert forall i :: 0 <= i < |hs| ==> vs[i] == Violation(cfg, hs[i]);
  }

  /** A violation found by `LastViolation` is that of an offending header after which none
      offends. */
  lemma LastViolationIndex(cfg: Config, hs: seq<Header>)
    requires LastViolation(cfg, hs).Some?
    ensures exists i :: 0 <= i < |hs| && LastViolation(cfg, hs) == Violation(cfg, hs[i]) &&
                        forall j :: i < j < |hs| ==> Violation(cfg, hs[j]).None?
  {
    var vs := Violations(cfg, hs);
    LastSomeIndex(vs);
    var i :| 0 <= i < |vs| && LastSome(vs) == vs[i] && forall j :: i < j < |vs| ==> vs[j].None?;
    assert forall j :: i < j < |hs| ==> Violation(cfg, hs[j]) == vs[j];
  }

  /** The violation of an offending header after which no header offends is what
      `LastViolation` finds. */
  lemma LastViolationFrom(cfg: Config, hs: seq<Header>, i: nat)
    requires i < |hs| && Violation(cfg, hs[i]).Some?
    requires forall j :: i < j < |hs| ==> Violation(cfg, hs[j]).None?
    ensures LastViolation(cfg, hs) == Violation(cfg, hs[i])
  {
    var vs := Violations(cfg, hs);
    assert forall j :: i < j < |hs| ==> vs[j] == Violation(cfg, hs[j]);
    LastSomeFrom(vs, i);
  }

  /** The all-or-nothing test fires exactly when some header offends or `UploadErr` already
      held a size or extension error before the loop. */
  lemma BatchRejects(cfg: Config, hs: seq<Header>, err: Option<Error>)
    ensures Rejects(ValidatePass(cfg, hs, err)) <==>
      (exists i :: 0 <= i < |hs| && Violation(cfg, hs[i]).Some?) || Rejects(err)
  {
    ValidatePassIsLastViolation(cfg, hs, err);
    LastViolationNone(cfg, hs);
    if LastViolation(cfg, hs).Some? {
      LastViolationIndex(cfg, hs);
    }
  }

  // ---------------------------------------------------------------------------------
  // The batch path

  /** The log after the form has been read once. */
  function AfterRead(log: Log): Log {
    log.(formReads := log.formReads + 1)
  }

  /** All or nothing: when any header of the batch offends, the upload fails with the
      violation of the last offending header, annotated with its file name, the extension
      error winning over the size error for that header; `UploadErr` holds that error;
      nothing is saved, examined, timed or drawn and `MultiInfo` is unchanged. */
  lemma MultiRejection(cfg: Config, o: Oracle, v: View, form: map<string, seq<Header>>, i: nat)
    requires cfg.savePath != "" && cfg.formName != ""
    requires o.request.form == Some(form)
    requires i < |FilesUnder(form, cfg.formName)|
    requires var files := FilesUnder(form, cfg.formName);
      Violation(cfg, files[i]).Some? && forall j :: i < j < |files| ==> Violation(cfg, files[j]).None?
    ensures var files := FilesUnder(form, cfg.formName);
      var kind := if !ExtAllowed(cfg, Paths.Ext(files[i].filename)) then UnsupportedfileExtErr
                  else FileSizeExceedsLimitErr;
      var err := Some(Annotated(files[i].filename, kind));
      UploadSpec(true, cfg, o, v) == Step(err, View(v.info.(uploadErr := err), v.multiInfo, AfterRead(v.log)))
  {
    var files := FilesUnder(form, cfg.formName);
    LastViolationFrom(cfg, files, i);
    ValidatePassIsLastViolation(cfg, files, v.info.uploadErr);
  }

  /** Any offending header, wherever it stands, rejects the whole batch: the returned error
      is a size or extension error and is what `UploadErr` now holds, no file is saved or
      examined, nothing is timed or drawn, and `MultiInfo` is unchanged. */
  lemma AnyOffenderRejects(cfg: Config, o: Oracle, v: View, form: map<string, seq<Header>>, i: nat)
    requires cfg.savePath != "" && cfg.formName != ""
    requires o.request.form == Some(form)
    requires i < |FilesUnder(form, cfg.formName)| && Violation(cfg, FilesUnder(form, cfg.formName)[i]).Some?
    ensures var s := UploadSpec(true, cfg, o, v);
      Rejects(s.err) && s.view == View(v.info.(uploadErr := s.err), v.multiInfo, AfterRead(v.log))
  {
    BatchRejects(cfg, FilesUnder(form, cfg.formName), v.info.uploadErr);
  }

  /** `UploadErr` is never cleared, so a batch uploader that once rejected a batch rejects
      every later batch, even one whose every header is acceptable, without saving any. */
  lemma StaleErrorBlocks(cfg: Config, o: Oracle, v: View, form: map<string, seq<Header>>)
    requires cfg.savePath != "" && cfg.formName != ""
    requires o.request.form == Some(form)
    requires forall j :: 0 <= j < |FilesUnder(form, cfg.formName)| ==> Violation(cfg, FilesUnder(form, cfg.formName)[j]).None?
    requires Rejects(v.info.uploadErr)
    ensures UploadSpec(true, cfg, o, v) == Step(v.info.uploadErr, View(v.info, v.multiInfo, AfterRead(v.log)))
  {
    var files := FilesUnder(form, cfg.formName);
    LastViolationNone(cfg, files);
    ValidatePassIsLastViolation(cfg, files, v.info.uploadErr);
  }

  /** A readable form with no file under the field: nothing is validated, saved, timed or
      drawn; the upload returns nil unless `UploadErr` already holds a size or extension
      error, which is then returned again; `Info` and `MultiInfo` keep the values of the
      previous upload. */
  lemma EmptyBatch(cfg: Config, o: Oracle, v: View, form: map<string, seq<Header>>)
    requires cfg.savePath != "" && cfg.formName != ""
    requires o.request.form == Some(form) && FilesUnder(form, cfg.formName) == []
    ensures UploadSpec(true, cfg, o, v)
         == Step(if Rejects(v.info.uploadErr) then v.info.uploadErr else None,
                 View(v.info, v.multiInfo, AfterRead(v.log)))
  {
  }

  // ---------------------------------------------------------------------------------
  // The save loop, for any step

  /** `store` succeeds on the first `|recs|` headers: the j-th iteration starts from
      `logs[j]`, yields `recs[j]` and leaves `logs[j + 1]`. */
  predicate Runs(store: StoreStep, hs: seq<Header>, logs: seq<Log>, recs: seq<Info>) {
    |logs| == |recs| + 1 && |recs| <= |hs| &&
    forall j :: 0 <= j < |recs| ==> store(hs[j], logs[j]) == (Success(recs[j]), logs[j + 1])
  }

  /** `MultiInfo` after the iterations of a run: unchanged when there were none, and
      otherwise the one record of the latest. */
  function LatestOf(multi: seq<Info>, recs: seq<Info>): seq<Info> {
    if recs == [] then multi else [recs[|recs| - 1]]
  }

  /** The iterations of a run leave the loop where the run ends, with only the latest
      record in `MultiInfo`. */
  lemma {:induction false} RunPrefix(store: StoreStep, hs: seq<Header>, multi: seq<Info>, logs: seq<Log>, recs: seq<Info>)
    requires Runs(store, hs, logs, recs)
    ensures SaveLoop(store, hs, multi, logs[0])
         == SaveLoop(store, hs[|recs|..], LatestOf(multi, recs), logs[|recs|])
    decreases |recs|
  {
    if recs != [] {
      assert store(hs[0], logs[0]) == (Success(recs[0]), logs[1]);
      assert Runs(store, hs[1..], logs[1..], recs[1..]) by {
        forall j | 0 <= j < |recs[1..]|
          ensures store(hs[1..][j], logs[1..][j]) == (Success(recs[1..][j]), logs[1..][j + 1])
        {
          assert store(hs[j + 1], logs[j + 1]) == (Success(recs[j + 1]), logs[j + 2]);
        }
      }
      RunPrefix(store, hs[1..], [recs[0]], logs[1..], recs[1..]);
      assert hs[1..][|recs| - 1..] == hs[|recs|..];
    }
  }

  /** A run that covers every header ends the loop without error. */
  lemma RunToEnd(store: StoreStep, hs: seq<Header>, multi: seq<Info>, logs: seq<Log>, recs: seq<Info>)
    requires Runs(store, hs, logs, recs) && |recs| == |hs|
    ensures SaveLoop(store, hs, multi, logs[0]) == (None, LatestOf(multi, recs), logs[|hs|])
  {
    RunPrefix(store, hs, multi, logs, recs);
    assert hs[|hs|..] == [];
  }

  /** A run followed by a failing iteration: the loop stops with that error, keeping the
      log of the failed iteration and the `MultiInfo` of the run. */
  lemma RunThenFail(store: StoreStep, hs: seq<Header>, multi: seq<Info>, logs: seq<Log>, recs: seq<Info>,
                    e: IoError, after: Log)
    requires Runs(store, hs, logs, recs) && |recs| < |hs|
    requires store(hs[|recs|], logs[|recs|]) == (Failure(e), after)
    ensures SaveLoop(store, hs, multi, logs[0]) == (Some(Io(e)), LatestOf(multi, recs), after)
  {
    RunPrefix(store, hs, multi, logs, recs);
    assert hs[|recs|..][0] == hs[|recs|];
  }

  // ---------------------------------------------------------------------------------
  // The save loop of a step that names files by a path function

  /** The first `n` saves of an uninterrupted run over `hs` that stores header `h` at
      `path(h, c, r)` when its iteration starts with clock read `c` and draw `r`: each
      iteration takes two clock reads (its name and its creation time) and eight draws. */
  function SavesOf(path: (Header, nat, nat) -> string, hs: seq<Header>, c: nat, r: nat, n: nat): seq<SaveCall>
    requires n <= |hs|
  {
    seq(n, j requires 0 <= j < |hs| => SaveCall(hs[j], path(hs[j], c + 2 * j, r + 8 * j)))
  }

  /** The paths examined by the first `n` iterations: those just saved. */
  function StatsOf(path: (Header, nat, nat) -> string, hs: seq<Header>, c: nat, r: nat, n: nat): seq<string>
    requires n <= |hs|
  {
    seq(n, j requires 0 <= j < |hs| => path(hs[j], c + 2 * j, r + 8 * j))
  }

  /** The log after the first `n` iterations of such a run from `log`. */
  function LogAt(path: (Header, nat, nat) -> string, hs: seq<Header>, log: Log, n: nat): Log
    requires n <= |hs|
  {
    var c, r := log.clockReads, log.randCalls;
    log.(clockReads := c + 2 * n, randCalls := r + 8 * n,
         saves := log.saves + SavesOf(path, hs, c, r, n),
         stats := log.stats + StatsOf(path, hs, c, r, n))
  }

  /** The first `n` saves and stats from `log` on succeed. */
  predicate StoresSucceed(o: Oracle, log: Log, n: nat) {
    (forall k :: |log.saves| <= k < |log.saves| + n ==> o.saveReply(k).None?) &&
    (forall k :: |log.stats| <= k < |log.stats| + n ==> o.statReply(k).StatOk?)
  }

  /** The save or the stat of iteration `n` after `log` fails. */
  predicate StoreFailsAt(o: Oracle, log: Log, n: nat) {
    o.saveReply(|log.saves| + n).Some? || o.statReply(|log.stats| + n).StatErr?
  }

  /** The error of that iteration: the save's, or else the stat's. */
  function FailureAt(o: Oracle, log: Log, n: nat): IoError
    requires StoreFailsAt(o, log, n)
  {
    match o.saveReply(|log.saves| + n)
    case Some(e) => e
    case None => o.statReply(|log.stats| + n).cause
  }

  /** The record of an iteration from `log` whose stat succeeds: the path, the stat's size,
      name and modification time, and the creation time of the iteration's second clock
      read. */
  function StoredRecord(path: (Header, nat, nat) -> string, o: Oracle, h: Header, log: Log): Info
    requires o.statReply(|log.stats|).StatOk?
  {
    var st := o.statReply(|log.stats|);
    Info(path(h, log.clockReads, log.randCalls), st.size, st.name, o.clock(log.clockReads + 1), st.modTime, None)
  }

  /** The log after an iteration from `log` whose save and stat succeed. */
  function StoredLog(path: (Header, nat, nat) -> string, h: Header, log: Log): Log {
    var p := path(h, log.clockReads, log.randCalls);
    log.(clockReads := log.clockReads + 2, randCalls := log.randCalls + 8,
         saves := log.saves + [SaveCall(h, p)], stats := log.stats + [p])
  }

  /** The log after an iteration from `log` whose save or stat fails: the name has been
      generated and the save attempted; the path has been examined if the save succeeded. */
  function FailedLog(path: (Header, nat, nat) -> string, o: Oracle, h: Header, log: Log): Log {
    var p := path(h, log.clockReads, log.randCalls);
    var attempted := log.(clockReads := log.clockReads + 1, randCalls := log.randCalls + 8,
                          saves := log.saves + [SaveCall(h, p)]);
    if o.saveReply(|log.saves|).Some? then attempted else attempted.(stats := log.stats + [p])
  }

  /** `store` behaves as an iteration of `Upload`'s loop that stores each header at `path`. */
  ghost predicate StoresAt(store: StoreStep, o: Oracle, path: (Header, nat, nat) -> string) {
    forall h, log :: store(h, log)
      == if o.saveReply(|log.saves|).None? && o.statReply(|log.stats|).StatOk?
         then (Success(StoredRecord(path, o, h, log)), StoredLog(path, h, log))
         else (Failure(FailureAt(o, log, 0)), FailedLog(path, o, h, log))
  }

  /** The record of the j-th header of an uninterrupted run. */
  function RecordAt(path: (Header, nat, nat) -> string, o: Oracle, hs: seq<Header>, log: Log, j: nat): Info
    requires j < |hs| && o.statReply(|log.stats| + j).StatOk?
  {
    var c, r := log.clockReads + 2 * j, log.randCalls + 8 * j;
    var st := o.statReply(|log.stats| + j);
    Info(path(hs[j], c, r), st.size, st.name, o.clock(c + 1), st.modTime, None)
  }

  /** The logs and the records of the first `n` iterations. */
  function LogsOf(path: (Header, nat, nat) -> string, hs: seq<Header>, log: Log, n: nat): seq<Log>
    requires n <= |hs|
  {
    seq(n + 1, j requires 0 <= j <= n => LogAt(path, hs, log, j))
  }

  function RecordsOf(path: (Header, nat, nat) -> string, o: Oracle, hs: seq<Header>, log: Log, n: nat): seq<Info>
    requires n <= |hs| && StoresSucceed(o, log, n)
  {
    seq(n, j requires 0 <= j < n => RecordAt(path, o, hs, log, j))
  }

  lemma SavesOfSnoc(path: (Header, nat, nat) -> string, hs: seq<Header>, c: nat, r: nat, n: nat)
    requires n < |hs|
    ensures SavesOf(path, hs, c, r, n + 1)
         == SavesOf(path, hs, c, r, n) + [SaveCall(hs[n], path(hs[n], c + 2 * n, r + 8 * n))]
  {
  }

  lemma StatsOfSnoc(path: (Header, nat, nat) -> string, hs: seq<Header>, c: nat, r: nat, n: nat)
    requires n < |hs|
    ensures StatsOf(path, hs, c, r, n + 1) == StatsOf(path, hs, c, r, n) + [path(hs[n], c + 2 * n, r + 8 * n)]
  {
  }

  /** The j-th iteration, when its save and stat succeed, stores the j-th header at the
      path for clock read `c + 2j` and draw `r + 8j` and adds its record. */
  lemma StepAt(store: StoreStep, o: Oracle, path: (Header, nat, nat) -> string, hs: seq<Header>, log: Log, j: nat)
    requires StoresAt(store, o, path) && j < |hs| && StoresSucceed(o, log, j + 1)
    ensures store(hs[j], LogAt(path, hs, log, j))
         == (Success(RecordAt(path, o, hs, log, j)), LogAt(path, hs, log, j + 1))
  {
    var c, r := log.clockReads, log.randCalls;
    var lj := LogAt(path, hs, log, j);
    assert |lj.saves| == |log.saves| + j && |lj.stats| == |log.stats| + j;
    var p := path(hs[j], c + 2 * j, r + 8 * j);
    assert store(hs[j], lj) == (Success(StoredRecord(path, o, hs[j], lj)), StoredLog(path, hs[j], lj));
    SavesOfSnoc(path, hs, c, r, j);
    StatsOfSnoc(path, hs, c, r, j);
    Seqs.AppendAssociative(log.saves, SavesOf(path, hs, c, r, j), [SaveCall(hs[j], p)]);
    Seqs.AppendAssociative(log.stats, StatsOf(path, hs, c, r, j), [p]);
  }

  /** While saves and stats succeed, the loop is a run through `LogsOf` and `RecordsOf`. */
  lemma StepsRun(store: StoreStep, o: Oracle, path: (Header, nat, nat) -> string, hs: seq<Header>, log: Log, n: nat)
    requires StoresAt(store, o, path) && n <= |hs| && StoresSucceed(o, log, n)
    ensures Runs(store, hs, LogsOf(path, hs, log, n), RecordsOf(path, o, hs, log, n))
  {
    var logs, recs := LogsOf(path, hs, log, n), RecordsOf(path, o, hs, log, n);
    forall j | 0 <= j < n
      ensures store(hs[j], logs[j]) == (Success(recs[j]), logs[j + 1])
    {
      StepAt(store, o, path, hs, log, j);
    }
  }

  /** The closed form of a run that covers every header. */
  lemma LoggedRunSucceeds(store: StoreStep, o: Oracle, path: (Header, nat, nat) -> string,
                          hs: seq<Header>, multi: seq<Info>, log: Log)
    requires StoresSucceed(o, log, |hs|)
    requires Runs(store, hs, LogsOf(path, hs, log, |hs|), RecordsOf(path, o, hs, log, |hs|))
    ensures var latest := if hs == [] then multi else [RecordAt(path, o, hs, log, |hs| - 1)];
      SaveLoop(store, hs, multi, log) == (None, latest, LogAt(path, hs, log, |hs|))
  {
    var n := |hs|;
    var logs, recs := LogsOf(path, hs, log, n), RecordsOf(path, o, hs, log, n);
    RunToEnd(store, hs, multi, logs, recs);
    assert logs[0] == log;
  }

  /** The closed form of a run of `n` iterations followed by a failing one. */
  lemma LoggedRunFails(store: StoreStep, o: Oracle, path: (Header, nat, nat) -> string,
                       hs: seq<Header>, multi: seq<Info>, log: Log, n: nat)
    requires n < |hs| && StoresSucceed(o, log, n) && StoreFailsAt(o, log, n)
    requires Runs(store, hs, LogsOf(path, hs, log, n), RecordsOf(path, o, hs, log, n))
    requires var ln := LogAt(path, hs, log, n);
      store(hs[n], ln) == (Failure(FailureAt(o, log, n)), FailedLog(path, o, hs[n], ln))
    ensures var latest := if n == 0 then multi else [RecordAt(path, o, hs, log, n - 1)];
      SaveLoop(store, hs, multi, log)
        == (Some(Io(FailureAt(o, log, n))), latest, FailedLog(path, o, hs[n], LogAt(path, hs, log, n)))
  {
    var logs, recs := LogsOf(path, hs, log, n), RecordsOf(path, o, hs, log, n);
    assert logs[n] == LogAt(path, hs, log, n);
    RunThenFail(store, hs, multi, logs, recs, FailureAt(o, log, n), FailedLog(path, o, hs[n], logs[n]));
    assert logs[0] == log;
  }

  /** While saves and stats succeed, the loop over all of `hs` ends without error, with
      the record of the last header in `MultiInfo`. */
  lemma LoopSucceeds(store: StoreStep, o: Oracle, path: (Header, nat, nat) -> string,
                     hs: seq<Header>, multi: seq<Info>, log: Log)
    requires StoresAt(store, o, path) && StoresSucceed(o, log, |hs|)
    ensures var latest := if hs == [] then multi else [RecordAt(path, o, hs, log, |hs| - 1)];
      SaveLoop(store, hs, multi, log) == (None, latest, LogAt(path, hs, log, |hs|))
  {
    StepsRun(store, o, path, hs, log, |hs|);
    LoggedRunSucceeds(store, o, path, hs, multi, log);
  }

  /** When the iteration of header `n` is the first to fail, the loop returns its error and
      keeps its log, with the record of the header before `n`, if any, in `MultiInfo`. */
  lemma LoopFails(store: StoreStep, o: Oracle, path: (Header, nat, nat) -> string,
                  hs: seq<Header>, multi: seq<Info>, log: Log, n: nat)
    requires StoresAt(store, o, path) && n < |hs| && StoresSucceed(o, log, n) && StoreFailsAt(o, log, n)
    ensures var latest := if n == 0 then multi else [RecordAt(path, o, hs, log, n - 1)];
      SaveLoop(store, hs, multi, log)
        == (Some(Io(FailureAt(o, log, n))), latest, FailedLog(path, o, hs[n], LogAt(path, hs, log, n)))
  {
    StepsRun(store, o, path, hs, log, n);
    StepFails(store, o, path, hs, log, n);
    LoggedRunFails(store, o, path, hs, multi, log, n);
  }

  /** The iteration of header `n`, when its save or stat fails, returns that error. */
  lemma StepFails(store: StoreStep, o: Oracle, path: (Header, nat, nat) -> string, hs: seq<Header>, log: Log, n: nat)
    requires StoresAt(store, o, path) && n < |hs| && StoreFailsAt(o, log, n)
    ensures var ln := LogAt(path, hs, log, n);
      store(hs[n], ln) == (Failure(FailureAt(o, log, n)), FailedLog(path, o, hs[n], ln))
  {
    var ln := LogAt(path, hs, log, n);
    assert |ln.saves| == |log.saves| + n && |ln.stats| == |log.stats| + n;
    assert store(hs[n], ln) == (Failure(FailureAt(o, ln, 0)), FailedLog(path, o, hs[n], ln));
  }

  // ---------------------------------------------------------------------------------
  // The iteration of `Upload`

  /** Where header `h` is stored when its iteration starts with clock read number `c` and
      random draw number `r`. */
  function StoredPath(cfg: Config, o: Oracle, h: Header, c: nat, r: nat): string {
    RealPath(cfg, GeneratedName(Unix(o.clock(c)), Suffix(o, r), h.filename))
  }

  /** `StoredPath` as a function of the header and the two call numbers. */
  function StoredPaths(cfg: Config, o: Oracle): (Header, nat, nat) -> string {
    (h: Header, c: nat, r: nat) => StoredPath(cfg, o, h, c, r)
  }

  /** One iteration whose save and stat succeed: it saves `h` under the path made from the
      next clock read and the next eight draws, examines that path, and records the stat's
      answers and a second clock read. */
  lemma StoreSucceeds(cfg: Config, o: Oracle, h: Header, log: Log)
    requires o.saveReply(|log.saves|).None? && o.statReply(|log.stats|).StatOk?
    ensures var p := StoredPath(cfg, o, h, log.clockReads, log.randCalls);
      var st := o.statReply(|log.stats|);
      Store(cfg, o, h, log)
        == (Success(Info(p, st.size, st.name, o.clock(log.clockReads + 1), st.modTime, None)),
            log.(clockReads := log.clockReads + 2, randCalls := log.randCalls + 8,
                 saves := log.saves + [SaveCall(h, p)], stats := log.stats + [p]))
  {
  }

  /** One iteration whose save or stat fails: the save has been attempted at the generated
      path either way, and the error is that of the save or, the save having succeeded, of
      the stat of that path. */
  lemma StoreFails(cfg: Config, o: Oracle, h: Header, log: Log)
    requires StoreFailsAt(o, log, 0)
    ensures var p := StoredPath(cfg, o, h, log.clockReads, log.randCalls);
      var attempted := log.(clockReads := log.clockReads + 1, randCalls := log.randCalls + 8,
                            saves := log.saves + [SaveCall(h, p)]);
      Store(cfg, o, h, log)
        == (Failure(FailureAt(o, log, 0)),
            if o.saveReply(|log.saves|).Some? then attempted else attempted.(stats := log.stats + [p]))
  {
  }

  /** `Upload`'s iteration stores each header at its `StoredPath`. */
  lemma UploadStoresAt(cfg: Config, o: Oracle)
    ensures StoresAt(Stores(cfg, o), o, StoredPaths(cfg, o))
  {
    forall h, log
      ensures Stores(cfg, o)(h, log)
           == if o.saveReply(|log.saves|).None? && o.statReply(|log.stats|).StatOk?
              then (Success(StoredRecord(StoredPaths(cfg, o), o, h, log)), StoredLog(StoredPaths(cfg, o), h, log))
              else (Failure(FailureAt(o, log, 0)), FailedLog(StoredPaths(cfg, o), o, h, log))
    {
      if o.saveReply(|log.saves|).None? && o.statReply(|log.stats|).StatOk? {
        StoreSucceeds(cfg, o, h, log);
      } else {
        StoreFails(cfg, o, h, log);
      }
    }
  }

  // ---------------------------------------------------------------------------------
  // The batch path after validation

  /** A batch in which every header is acceptable passes validation with `UploadErr` as
      it was. */
  lemma CleanBatchKeepsError(cfg: Config, hs: seq<Header>, err: Option<Error>)
    requires forall j :: 0 <= j < |hs| ==> Violation(cfg, hs[j]).None?
    ensures ValidatePass(cfg, hs, err) == err
  {
    LastViolationNone(cfg, hs);
    ValidatePassIsLastViolation(cfg, hs, err);
  }

  /** An accepted batch goes to the save loop, after the one read of the form, with
      `UploadErr` as it was. */
  lemma AcceptedBatch(cfg: Config, o: Oracle, v: View, form: map<string, seq<Header>>)
    requires o.request.form == Some(form)
    requires forall j :: 0 <= j < |FilesUnder(form, cfg.formName)| ==> Violation(cfg, FilesUnder(form, cfg.formName)[j]).None?
    requires !Rejects(v.info.uploadErr)
    ensures var (e, multi, log) := SaveLoop(Stores(cfg, o), FilesUnder(form, cfg.formName), v.multiInfo, AfterRead(v.log));
      UploadMulti(cfg, o, v) == Step(e, View(v.info, multi, log))
  {
    CleanBatchKeepsError(cfg, FilesUnder(form, cfg.formName), v.info.uploadErr);
  }

  /** A batch in which every header is acceptable and every save and stat succeeds: the
      upload succeeds, the j-th header is saved under the path made from the log's clock
      read `2j` on and its draws `8j` on (see `StoredInsideSavePath`), every saved path is
      examined, and `MultiInfo` ends up holding the record of the last header only. */
  lemma MultiSuccess(cfg: Config, o: Oracle, v: View, form: map<string, seq<Header>>)
    requires o.request.form == Some(form)
    requires forall j :: 0 <= j < |FilesUnder(form, cfg.formName)| ==> Violation(cfg, FilesUnder(form, cfg.formName)[j]).None?
    requires !Rejects(v.info.uploadErr)
    requires StoresSucceed(o, AfterRead(v.log), |FilesUnder(form, cfg.formName)|)
    ensures var files, read, path := FilesUnder(form, cfg.formName), AfterRead(v.log), StoredPaths(cfg, o);
      var n := |files|;
      var multi := if n == 0 then v.multiInfo else [RecordAt(path, o, files, read, n - 1)];
      UploadMulti(cfg, o, v) == Step(None, View(v.info, multi, LogAt(path, files, read, n)))
  {
    AcceptedBatch(cfg, o, v, form);
    UploadStoresAt(cfg, o);
    LoopSucceeds(Stores(cfg, o), o, StoredPaths(cfg, o), FilesUnder(form, cfg.formName), v.multiInfo, AfterRead(v.log));
  }

  /** A batch in which every header is acceptable and the iteration of header `n` is the
      first whose save or stat fails: the upload returns that error, the `n` earlier files
      stay saved and the failed save has been attempted too (nothing is rolled back), and
      `MultiInfo` holds the record of the header before `n`, if any. */
  lemma MultiSaveFailure(cfg: Config, o: Oracle, v: View, form: map<string, seq<Header>>, n: nat)
    requires o.request.form == Some(form)
    requires forall j :: 0 <= j < |FilesUnder(form, cfg.formName)| ==> Violation(cfg, FilesUnder(form, cfg.formName)[j]).None?
    requires !Rejects(v.info.uploadErr)
    requires n < |FilesUnder(form, cfg.formName)|
    requires StoresSucceed(o, AfterRead(v.log), n) && StoreFailsAt(o, AfterRead(v.log), n)
    ensures var files, read, path := FilesUnder(form, cfg.formName), AfterRead(v.log), StoredPaths(cfg, o);
      var multi := if n == 0 then v.multiInfo else [RecordAt(path, o, files, read, n - 1)];
      UploadMulti(cfg, o, v)
        == Step(Some(Io(FailureAt(o, read, n))), View(v.info, multi, FailedLog(path, o, files[n], LogAt(path, files, read, n))))
  {
    AcceptedBatch(cfg, o, v, form);
    UploadStoresAt(cfg, o);
    LoopFails(Stores(cfg, o), o, StoredPaths(cfg, o), FilesUnder(form, cfg.formName), v.multiInfo, AfterRead(v.log), n);
  }
}
