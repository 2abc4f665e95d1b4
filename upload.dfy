/** upload.go: the configuration, the size and extension validators, and `File.Upload`,
    which validates and stores one file or a whole batch. */
module Upload {
  import opened Wrappers
  import opened Host
  import opened Times
  import Strings
  import Strconv
  import Paths
  import Utils

  /** `MAX_UPLOAD_SIZE`: the size limit when none is configured, 10 MiB. */
  const DefaultMaxUploadSize: int64 := 1024 * 1024 * 10

  /** `ENABLE_EXT_NAME`: the extensions accepted when none are configured. Two of the
      entries carry no leading dot. */
  const DefaultEnableExtName: string := ".jpg,.png,.jpeg,xlsx,xls"

  /** The sentinel errors of the package. */
  datatype Kind =
    | UnsupportedfileExtErr
    | UploadFaildErr
    | FileSizeExceedsLimitErr
    | FileSavePathCannotBeEmpty
    | UploadFormNameCannotBeEmpty

  /** An error value: a bare sentinel, a sentinel wrapped with the offending file name
      (`fmt.Errorf` with `%w`), or an error of the host passed on unchanged. */
  datatype Error =
    | Sentinel(kind: Kind)
    | Annotated(fileName: string, kind: Kind)
    | Io(cause: IoError)

  /** `errors.Is(err, target)` for a sentinel target; a nil error matches nothing. */
  predicate Is(err: Option<Error>, target: Kind) {
    err.Some? && !err.value.Io? && err.value.kind == target
  }

  /** `Config`. A zero `maxUploadSize` and an empty `enableExtName` mean "use the default". */
  datatype Config = Config(savePath: string, formName: string, maxUploadSize: int64, enableExtName: seq<string>)

  /** `Info`: the record of a stored file, together with the last upload error. */
  datatype Info = Info(
    realPath: string,
    size: int64,
    fileName: string,
    createTime: Instant,
    lastModifyTime: Instant,
    uploadErr: Option<Error>)

  /** The zero `Info{}`. */
  const ZeroInfo := Info("", 0, "", ZeroTime, ZeroTime, None)

  // ---------------------------------------------------------------------------------
  // Validators

  /** `file.SizeIs(fileSize)`: strictly below the configured limit, or below 10 MiB when
      the limit is zero. */
  function SizeIs(cfg: Config, fileSize: int64): (ok: bool)
    ensures cfg.maxUploadSize != 0 ==> (ok <==> fileSize < cfg.maxUploadSize)
    ensures cfg.maxUploadSize == 0 ==> (ok <==> fileSize < 10485760)
  {
    if cfg.maxUploadSize != 0 then fileSize < cfg.maxUploadSize else fileSize < DefaultMaxUploadSize
  }

  /** The five entries of `ENABLE_EXT_NAME`. */
  const DefaultExtNames: seq<string> := [".jpg", ".png", ".jpeg", "xlsx", "xls"]

  /** Splitting `ENABLE_EXT_NAME` on ',' (`strings.FieldsFunc`) gives exactly the five
      entries, taken literally. */
  lemma DefaultListIsSplit()
    ensures Strings.Fields(DefaultEnableExtName, ',') == DefaultExtNames
  {
    assert Strings.JoinWith(DefaultExtNames, ",") == DefaultEnableExtName;
    Strings.FieldsOfJoin(DefaultExtNames, ',');
  }

  /** The allow-list in force: the configured list, or the default entries when it is empty. */
  function AllowList(cfg: Config): seq<string> {
    if |cfg.enableExtName| != 0 then cfg.enableExtName else DefaultExtNames
  }

  /** What `file.extIs(fileExt)` answers: membership in the allow-list in force. */
  function ExtAllowed(cfg: Config, fileExt: string): bool {
    fileExt in AllowList(cfg)
  }

  /** The extension test is a literal, case-sensitive match: against the configured entries
      when there are any, and otherwise against exactly the five default entries. */
  lemma ExtAllowedLiteralMatch(cfg: Config, fileExt: string)
    ensures |cfg.enableExtName| != 0 ==>
      (ExtAllowed(cfg, fileExt) <==> exists i :: 0 <= i < |cfg.enableExtName| && cfg.enableExtName[i] == fileExt)
    ensures |cfg.enableExtName| == 0 ==>
      (ExtAllowed(cfg, fileExt) <==> fileExt in [".jpg", ".png", ".jpeg", "xlsx", "xls"])
  {
  }

  /** With no configured list, "xlsx" and "xls" pass but ".xlsx" and ".xls", which is what
      `path.Ext` yields for spreadsheet names, do not; case matters. */
  lemma DefaultSpreadsheetEntries(cfg: Config)
    requires |cfg.enableExtName| == 0
    ensures ExtAllowed(cfg, "xlsx") && ExtAllowed(cfg, "xls")
    ensures !ExtAllowed(cfg, ".xlsx") && !ExtAllowed(cfg, ".xls")
    ensures ExtAllowed(cfg, ".jpg") && !ExtAllowed(cfg, ".JPG")
  {
  }

  /** `file.extIs(fileExt)`: split the default list, pick the list in force, scan it. */
  method ExtIs(cfg: Config, fileExt: string) returns (enable: bool)
    ensures enable == ExtAllowed(cfg, fileExt)
  {
    var defaultEnableExtName := Strings.Fields(DefaultEnableExtName, ',');
    DefaultListIsSplit();
    if |cfg.enableExtName| != 0 {
      enable := ExtMatch(fileExt, cfg.enableExtName);
    } else {
      enable := ExtMatch(fileExt, defaultEnableExtName);
    }
  }

  /** The `extMatch` closure: scan the list and stop at the first entry equal to `fileExt`. */
  method ExtMatch(fileExt: string, enableExtName: seq<string>) returns (enable: bool)
    ensures enable <==> fileExt in enableExtName
  {
    enable := false;
    for i := 0 to |enableExtName|
      invariant !enable
      invariant forall k :: 0 <= k < i ==> enableExtName[k] != fileExt
    {
      if enableExtName[i] == fileExt {
        enable := true;
        break;
      }
    }
  }

  // ---------------------------------------------------------------------------------
  // The batch validation pass

  /** What one header contributes to the validation pass: an extension violation outranks
      a size violation because it is recorded second. */
  function Violation(cfg: Config, h: Header): Option<Error> {
    if !ExtAllowed(cfg, Paths.Ext(h.filename)) then Some(Annotated(h.filename, UnsupportedfileExtErr))
    else if !SizeIs(cfg, h.size) then Some(Annotated(h.filename, FileSizeExceedsLimitErr))
    else None
  }

  /** One iteration of the validation loop: `UploadErr` is overwritten by a size violation,
      then by an extension violation. */
  function ValidateStep(cfg: Config, h: Header, err: Option<Error>): Option<Error> {
    var afterSize := if !SizeIs(cfg, h.size) then Some(Annotated(h.filename, FileSizeExceedsLimitErr)) else err;
    if !ExtAllowed(cfg, Paths.Ext(h.filename)) then Some(Annotated(h.filename, UnsupportedfileExtErr)) else afterSize
  }

  /** The validation loop over the headers, starting from the current `UploadErr`. */
  function ValidatePass(cfg: Config, hs: seq<Header>, err: Option<Error>): Option<Error>
    decreases |hs|
  {
    if hs == [] then err else ValidatePass(cfg, hs[1..], ValidateStep(cfg, hs[0], err))
  }

  /** The violation of each header, in order. */
  function Violations(cfg: Config, hs: seq<Header>): seq<Option<Error>> {
    seq(|hs|, i requires 0 <= i < |hs| => Violation(cfg, hs[i]))
  }

  /** The last present entry, scanning from the back. */
  function LastSome(vs: seq<Option<Error>>): Option<Error>
    decreases |vs|
  {
    if vs == [] then None
    else if vs[|vs| - 1].Some? then vs[|vs| - 1]
    else LastSome(vs[..|vs| - 1])
  }

  /** The violation of the last violating header. */
  function LastViolation(cfg: Config, hs: seq<Header>): Option<Error> {
    LastSome(Violations(cfg, hs))
  }

  /** The all-or-nothing test after the validation loop. */
  predicate Rejects(err: Option<Error>) {
    Is(err, FileSizeExceedsLimitErr) || Is(err, UnsupportedfileExtErr)
  }

  // ---------------------------------------------------------------------------------
  // Naming and storing one file

  /** The length of the random part of a generated name. */
  const SuffixLength: nat := 8

  /** Decimal Unix seconds, then the random suffix, then the original extension. */
  function GeneratedName(unix: int, suffix: string, original: string): string {
    Strconv.FormatInt(unix) + suffix + Paths.Ext(original)
  }

  /** The random part of a name: `RandString(8, []rune{})`, eight runes of the default pool
      chosen by the draws made from call number `start` on. */
  function Suffix(o: Oracle, start: nat): string
  {
    DrawsBounded(o, start, SuffixLength, |Utils.EffectivePool([])|);
    Utils.Drawn(Utils.EffectivePool([]), Draws(o, start, SuffixLength, |Utils.EffectivePool([])|))
  }

  /** The name generated for header `h`: it reads the clock once and draws eight indices
      into the default pool. */
  function NameFor(o: Oracle, h: Header, log: Log): (string, Log)
  {
    (GeneratedName(Unix(o.clock(log.clockReads)), Suffix(o, log.randCalls), h.filename),
     log.(clockReads := log.clockReads + 1, randCalls := log.randCalls + SuffixLength))
  }

  /** The destination path: `filepath.Join(SavePath, "/", fileName)`. */
  function RealPath(cfg: Config, fileName: string): string {
    Paths.Join([cfg.savePath, "/", fileName])
  }

  /** Save `h` to `realPath`, stat it and build its record: the size, name and modification
      time come from the stat, the creation time from one more clock reading. */
  function Persist(o: Oracle, h: Header, realPath: string, log: Log): (Result<Info, IoError>, Log) {
    var saved := log.(saves := log.saves + [SaveCall(h, realPath)]);
    match o.saveReply(|log.saves|)
    case Some(e) => (Failure(e), saved)
    case None =>
      var statted := saved.(stats := saved.stats + [realPath]);
      match o.statReply(|saved.stats|)
      case StatErr(e) => (Failure(e), statted)
      case StatOk(size, name, modTime) =>
        (Success(Info(realPath, size, name, o.clock(statted.clockReads), modTime, None)),
         statted.(clockReads := statted.clockReads + 1))
  }

  /** What one iteration of the save loop does with a header, given the log so far. */
  type StoreStep = (Header, Log) -> (Result<Info, IoError>, Log)

  /** The save loop of the batch path, iterating `store`: each stored file replaces
      `MultiInfo` by a one-element list; the first failure ends the loop with that error. */
  function SaveLoop(store: StoreStep, hs: seq<Header>, multi: seq<Info>, log: Log): (Option<Error>, seq<Info>, Log)
    decreases |hs|
  {
    if hs == [] then (None, multi, log)
    else
      var (r, stored) := store(hs[0], log);
      match r
      case Failure(e) => (Some(Io(e)), multi, stored)
      case Success(info) => SaveLoop(store, hs[1..], [info], stored)
  }

  /** One iteration of the save loop: name `h`, then save and stat it below the save path. */
  function Store(cfg: Config, o: Oracle, h: Header, log: Log): (Result<Info, IoError>, Log)
  {
    var (fileName, named) := NameFor(o, h, log);
    Persist(o, h, RealPath(cfg, fileName), named)
  }

  /** The iteration `Upload` runs, as a step of the save loop. */
  function Stores(cfg: Config, o: Oracle): StoreStep {
    (h: Header, log: Log) => Store(cfg, o, h, log)
  }

  // ---------------------------------------------------------------------------------
  // Upload

  /** The state `Upload` can change: the receiver's `Info` and `MultiInfo`, and the host log. */
  datatype View = View(info: Info, multiInfo: seq<Info>, log: Log)

  /** The returned error together with the new state. */
  datatype Step = Step(err: Option<Error>, view: View)

  /** The batch path. */
  function UploadMulti(cfg: Config, o: Oracle, v: View): Step
  {
    var read := v.log.(formReads := v.log.formReads + 1);
    match o.request.form
    case None => Step(Some(Sentinel(UploadFaildErr)), v.(log := read))
    case Some(form) =>
      var files := FilesUnder(form, cfg.formName);
      var err := ValidatePass(cfg, files, v.info.uploadErr);
      var info := v.info.(uploadErr := err);
      if Rejects(err) then Step(err, View(info, v.multiInfo, read))
      else
        var (e, multi, log) := SaveLoop(Stores(cfg, o), files, v.multiInfo, read);
        Step(e, View(info, multi, log))
  }

  /** The single-file path. The name is generated before the checks; the size is checked
      before the extension. */
  function UploadSingle(cfg: Config, o: Oracle, v: View): Step
  {
    var read := v.log.(formReads := v.log.formReads + 1);
    match FirstFile(o.request, cfg.formName)
    case None => Step(Some(Sentinel(UploadFaildErr)), v.(log := read))
    case Some(h) =>
      var (fileName, named) := NameFor(o, h, read);
      if !SizeIs(cfg, h.size) then
        Step(Some(Sentinel(FileSizeExceedsLimitErr)),
             View(v.info.(uploadErr := Some(Sentinel(FileSizeExceedsLimitErr))), v.multiInfo, named))
      else if !ExtAllowed(cfg, Paths.Ext(h.filename)) then
        Step(Some(Sentinel(UnsupportedfileExtErr)),
             View(v.info.(uploadErr := Some(Sentinel(UnsupportedfileExtErr))), v.multiInfo, named))
      else
        var (r, persisted) := Persist(o, h, RealPath(cfg, fileName), named);
        match r
        case Failure(e) => Step(Some(Io(e)), v.(log := persisted))
        case Success(rec) =>
          var info := v.info.(realPath := rec.realPath, size := rec.size, createTime := rec.createTime,
                              fileName := rec.fileName, lastModifyTime := rec.lastModifyTime);
          Step(None, View(info, v.multiInfo, persisted))
  }

  /** `file.Upload(c)`: the save path is checked first, then the form name, then the path
      chosen by the uploader's kind. */
  function UploadSpec(multipartFile: bool, cfg: Config, o: Oracle, v: View): Step
  {
    if cfg.savePath == "" then Step(Some(Sentinel(FileSavePathCannotBeEmpty)), v)
    else if cfg.formName == "" then Step(Some(Sentinel(UploadFormNameCannotBeEmpty)), v)
    else if multipartFile then UploadMulti(cfg, o, v)
    else UploadSingle(cfg, o, v)
  }

  /** Generate the name for `h`: `time.Now().Unix()`, `RandString(8, []rune{})` and `path.Ext`. */
  method NewFileName(host: Host, h: Header) returns (fileName: string)
    modifies host`log
    ensures (fileName, host.log) == NameFor(host.oracle, h, old(host.log))
  {
    var now := host.Now();
    var fileNameInt := Unix(now);
    var draws := host.RandInts(SuffixLength, |Utils.EffectivePool([])|);
    DrawsBounded(host.oracle, old(host.log.randCalls), SuffixLength, |Utils.EffectivePool([])|);
    var suffix := Utils.RandString(SuffixLength, [], draws);
    var fileExt := Paths.Ext(h.filename);
    fileName := Strconv.FormatInt(fileNameInt) + suffix + fileExt;
  }

  /** Save `h` to `realPath` and stat the result. */
  method SaveAndStat(host: Host, h: Header, realPath: string) returns (r: Result<Info, IoError>)
    modifies host`log
    ensures (r, host.log) == Persist(host.oracle, h, realPath, old(host.log))
  {
    var err := host.SaveUploadedFile(h, realPath);
    if err.Some? {
      return Failure(err.value);
    }
    var fileStat := host.Stat(realPath);
    if fileStat.StatErr? {
      return Failure(fileStat.cause);
    }
    var createTime := host.Now();
    r := Success(Info(realPath, fileStat.size, fileStat.name, createTime, fileStat.modTime, None));
  }

  /** Name `h`, then save and stat it below the configured save path. */
  method StoreFile(host: Host, config: Config, h: Header) returns (r: Result<Info, IoError>)
    modifies host`log
    ensures (r, host.log) == Store(config, host.oracle, h, old(host.log))
  {
    var fileName := NewFileName(host, h);
    var realPath := Paths.Join([config.savePath, "/", fileName]);
    r := SaveAndStat(host, h, realPath);
  }

  /** `File`: an uploader with its configuration and the results of its last upload. */
  class File {
    var multipartFile: bool
    var config: Config
    var info: Info
    var multiInfo: seq<Info>

    /** `NewFileUploader(config)`. */
    constructor NewFileUploader(config: Config)
      ensures !multipartFile && this.config == config && info == ZeroInfo && multiInfo == []
    {
      multipartFile := false;
      this.config := config;
      info := ZeroInfo;
      multiInfo := [];
    }

    /** `NewMultiFileUploader(config)`. */
    constructor NewMultiFileUploader(config: Config)
      ensures multipartFile && this.config == config && info == ZeroInfo && multiInfo == []
    {
      multipartFile := true;
      this.config := config;
      info := ZeroInfo;
      multiInfo := [];
    }

    /** `file.Upload(c)`, with the gin context, the filesystem and the clock behind `host`. */
    method Upload(host: Host) returns (err: Option<Error>)
      modifies this`info, this`multiInfo, host`log
      ensures Step(err, View(info, multiInfo, host.log))
           == UploadSpec(multipartFile, config, host.oracle, old(View(info, multiInfo, host.log)))
    {
      if config.savePath == "" {
        return Some(Sentinel(FileSavePathCannotBeEmpty));
      }
      if config.formName == "" {
        return Some(Sentinel(UploadFormNameCannotBeEmpty));
      }
      if multipartFile {
        err := UploadBatch(host);
      } else {
        err := UploadOne(host);
      }
    }

    /** The batch path of `Upload` (upload.go, lines 90-136). */
    method UploadBatch(host: Host) returns (err: Option<Error>)
      modifies this`info, this`multiInfo, host`log
      ensures Step(err, View(info, multiInfo, host.log))
           == UploadMulti(config, host.oracle, old(View(info, multiInfo, host.log)))
    {
      var form := host.MultipartForm();
      if form.None? {
        return Some(Sentinel(UploadFaildErr));
      }
      var files := FilesUnder(form.value, config.formName);
      ghost var v0 := old(View(info, multiInfo, host.log));
      ghost var read := host.log;
      assert read == v0.log.(formReads := v0.log.formReads + 1);
      assert host.oracle.request.form == Some(form.value);
      Validate(files);
      ghost var e := ValidatePass(config, files, v0.info.uploadErr);
      assert info == v0.info.(uploadErr := e);
      if Rejects(info.uploadErr) {
        assert UploadMulti(config, host.oracle, v0) == Step(e, View(info, v0.multiInfo, read));
        return info.uploadErr;
      }
      err := SaveAll(host, files);
      assert (err, multiInfo, host.log) == SaveLoop(Stores(config, host.oracle), files, v0.multiInfo, read);
    }

    /** The validation loop: every header is checked and each violation overwrites `UploadErr`. */
    method Validate(files: seq<Header>)
      modifies this`info
      ensures info == old(info).(uploadErr := ValidatePass(config, files, old(info.uploadErr)))
    {
      for i := 0 to |files|
        invariant ValidatePass(config, files[i..], info.uploadErr)
               == ValidatePass(config, files, old(info.uploadErr))
        invariant info == old(info).(uploadErr := info.uploadErr)
      {
        ghost var before := info.uploadErr;
        assert ValidatePass(config, files[i..], before)
            == ValidatePass(config, files[i + 1..], ValidateStep(config, files[i], before)) by {
          assert files[i..][1..] == files[i + 1..];
        }
        var fileName := files[i].filename;
        var fileSize := files[i].size;
        if !SizeIs(config, fileSize) {
          info := info.(uploadErr := Some(Annotated(fileName, FileSizeExceedsLimitErr)));
        }
        var fileExt := Paths.Ext(fileName);
        var ok := ExtIs(config, fileExt);
        if !ok {
          info := info.(uploadErr := Some(Annotated(fileName, UnsupportedfileExtErr)));
        }
        assert info.uploadErr == ValidateStep(config, files[i], before);
      }
      assert files[|files|..] == [];
    }

    /** The save loop: name, save and stat each header; `MultiInfo` is replaced each time. */
    method SaveAll(host: Host, files: seq<Header>) returns (err: Option<Error>)
      modifies this`multiInfo, host`log
      ensures (err, multiInfo, host.log) == SaveLoop(Stores(config, host.oracle), files, old(multiInfo), old(host.log))
    {
      for i := 0 to |files|
        invariant SaveLoop(Stores(config, host.oracle), files[i..], multiInfo, host.log)
               == SaveLoop(Stores(config, host.oracle), files, old(multiInfo), old(host.log))
      {
        ghost var log0, multi0 := host.log, multiInfo;
        assert files[i..][0] == files[i] && files[i..][1..] == files[i + 1..];
        var r := StoreFile(host, config, files[i]);
        if r.Failure? {
          assert SaveLoop(Stores(config, host.oracle), files[i..], multi0, log0) == (Some(Io(r.error)), multi0, host.log);
          return Some(Io(r.error));
        }
        multiInfo := [r.value];
        assert SaveLoop(Stores(config, host.oracle), files[i..], multi0, log0)
            == SaveLoop(Stores(config, host.oracle), files[i + 1..], multiInfo, host.log);
      }
      assert files[|files|..] == [];
      return None;
    }

    /** The single-file path of `Upload` (upload.go, lines 137-170). */
    method UploadOne(host: Host) returns (err: Option<Error>)
      modifies this`info, host`log
      ensures Step(err, View(info, multiInfo, host.log))
           == UploadSingle(config, host.oracle, old(View(info, multiInfo, host.log)))
    {
      var headers := host.FormFile(config.formName);
      if headers.None? {
        return Some(Sentinel(UploadFaildErr));
      }
      var h := headers.value;
      ghost var v0 := old(View(info, multiInfo, host.log));
      assert FirstFile(host.oracle.request, config.formName) == Some(h);
      assert host.log == v0.log.(formReads := v0.log.formReads + 1);
      var fileSize := h.size;
      var fileName := NewFileName(host, h);
      var fileExt := Paths.Ext(h.filename);
      if !SizeIs(config, fileSize) {
        info := info.(uploadErr := Some(Sentinel(FileSizeExceedsLimitErr)));
        return Some(Sentinel(FileSizeExceedsLimitErr));
      }
      var ok := ExtIs(config, fileExt);
      if !ok {
        info := info.(uploadErr := Some(Sentinel(UnsupportedfileExtErr)));
        return Some(Sentinel(UnsupportedfileExtErr));
      }
      var realPath := Paths.Join([config.savePath, "/", fileName]);
      var r := SaveAndStat(host, h, realPath);
      if r.Failure? {
        return Some(Io(r.error));
      }
      var rec := r.value;
      info := info.(realPath := rec.realPath, size := rec.size, createTime := rec.createTime,
                    fileName := rec.fileName, lastModifyTime := rec.lastModifyTime);
      return None;
    }
  }
}
