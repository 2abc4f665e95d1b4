/** What the uploader reaches outside itself: the parsed multipart request behind the gin
    context, `SaveUploadedFile`, `os.Stat`, the clock and `crypto/rand`. Each is an oracle
    whose k-th answer is fixed in advance; a `Host` counts and records the calls made to it. */
module Host {
  import opened Wrappers
  import opened Times

  newtype int64 = x: int | -0x8000_0000_0000_0000 <= x < 0x8000_0000_0000_0000

  /** An operating-system or framework error, passed on to the caller unchanged. */
  datatype IoError = IoError(code: nat)

  /** A multipart file header: the client's file name and the declared size in bytes. */
  datatype Header = Header(filename: string, size: int64)

  /** The request: its multipart form maps field names to file headers; `None` when the
      body cannot be parsed as a multipart form. */
  datatype Request = Request(form: Option<map<string, seq<Header>>>)

  /** `form.File[name]`: the headers under `name`; a missing key reads as an empty list. */
  function FilesUnder(form: map<string, seq<Header>>, name: string): seq<Header> {
    if name in form then form[name] else []
  }

  /** `c.Request.FormFile(name)`: the first header under `name`, or nothing when the form
      cannot be parsed or has no file under that name. */
  function FirstFile(req: Request, name: string): (r: Option<Header>)
    ensures r.Some? <==> req.form.Some? && FilesUnder(req.form.value, name) != []
    ensures r.Some? ==> r.value == FilesUnder(req.form.value, name)[0]
  {
    match req.form
    case None => None
    case Some(form) => if FilesUnder(form, name) == [] then None else Some(FilesUnder(form, name)[0])
  }

  /** The answer of `os.Stat`: an error, or the size, base name and modification time. */
  datatype StatReply = StatErr(cause: IoError) | StatOk(size: int64, name: string, modTime: Instant)

  /** One call of `SaveUploadedFile`: which header was copied to which path. */
  datatype SaveCall = SaveCall(header: Header, dst: string)

  /** The answers of `rand.Int(rand.Reader, max)` by call number and bound: always a number
      in [0, max). */
  type RandSource = f: (nat, nat) -> nat | forall k: nat, max: nat :: 0 < max ==> f(k, max) < max
    witness (k: nat, max: nat) => 0

  /** The answers the environment gives, by call number. */
  datatype Oracle = Oracle(
    request: Request,
    clock: nat -> Instant,             // the k-th time.Now()
    randInt: RandSource,               // the k-th rand.Int(rand.Reader, max), given max
    saveReply: nat -> Option<IoError>, // the k-th SaveUploadedFile
    statReply: nat -> StatReply)       // the k-th os.Stat

  /** What has been asked of the environment so far. */
  datatype Log = Log(
    formReads: nat,        // reads of the multipart form (MultipartForm or FormFile)
    clockReads: nat,
    randCalls: nat,
    saves: seq<SaveCall>,
    stats: seq<string>)    // the paths passed to os.Stat

  const EmptyLog := Log(0, 0, 0, [], [])

  /** `n` consecutive answers of `rand.Int` with bound `max`, from call number `start` on. */
  function Draws(o: Oracle, start: nat, n: nat, max: nat): seq<nat> {
    var draw: (nat, nat) -> nat := o.randInt;
    seq(n, (i: nat) requires i < n => draw(start + i, max))
  }

  /** There are `n` draws and each lies below the bound. */
  lemma DrawsBounded(o: Oracle, start: nat, n: nat, max: nat)
    requires max > 0
    ensures |Draws(o, start, n, max)| == n && forall i :: 0 <= i < n ==> Draws(o, start, n, max)[i] < max
  {
  }

  class Host {
    const oracle: Oracle
    var log: Log

    constructor (oracle: Oracle)
      ensures this.oracle == oracle && log == EmptyLog
    {
      this.oracle := oracle;
      log := EmptyLog;
    }

    /** `c.MultipartForm()`. */
    method MultipartForm() returns (form: Option<map<string, seq<Header>>>)
      modifies this`log
      ensures form == oracle.request.form
      ensures log == old(log).(formReads := old(log.formReads) + 1)
    {
      form := oracle.request.form;
      log := log.(formReads := log.formReads + 1);
    }

    /** `c.Request.FormFile(name)`. */
    method FormFile(name: string) returns (header: Option<Header>)
      modifies this`log
      ensures header == FirstFile(oracle.request, name)
      ensures log == old(log).(formReads := old(log.formReads) + 1)
    {
      header := FirstFile(oracle.request, name);
      log := log.(formReads := log.formReads + 1);
    }

    /** `time.Now()`. */
    method Now() returns (t: Instant)
      modifies this`log
      ensures t == oracle.clock(old(log.clockReads))
      ensures log == old(log).(clockReads := old(log.clockReads) + 1)
    {
      t := oracle.clock(log.clockReads);
      log := log.(clockReads := log.clockReads + 1);
    }

    /** `n` calls of `rand.Int(rand.Reader, big.NewInt(max))`. */
    method RandInts(n: nat, max: nat) returns (ds: seq<nat>)
      requires max > 0
      modifies this`log
      ensures ds == Draws(oracle, old(log.randCalls), n, max)
      ensures log == old(log).(randCalls := old(log.randCalls) + n)
    {
      ds := Draws(oracle, log.randCalls, n, max);
      DrawsBounded(oracle, log.randCalls, n, max);
      log := log.(randCalls := log.randCalls + n);
    }

    /** `c.SaveUploadedFile(header, dst)`. */
    method SaveUploadedFile(header: Header, dst: string) returns (err: Option<IoError>)
      modifies this`log
      ensures err == oracle.saveReply(|old(log.saves)|)
      ensures log == old(log).(saves := old(log.saves) + [SaveCall(header, dst)])
    {
      err := oracle.saveReply(|log.saves|);
      log := log.(saves := log.saves + [SaveCall(header, dst)]);
    }

    /** `os.Stat(path)`. */
    method Stat(path: string) returns (reply: StatReply)
      modifies this`log
      ensures reply == oracle.statReply(|old(log.stats)|)
      ensures log == old(log).(stats := old(log.stats) + [path])
    {
      reply := oracle.statReply(|log.stats|);
      log := log.(stats := log.stats + [path]);
    }
  }
}
