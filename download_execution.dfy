/**
 * `DownloadExecutionService`: runs one download for a task in DOWNLOADING.
 * An HLS URL goes to the HLS downloader; any other URL is downloaded over
 * HTTP into `<name>.part`, resumed from the bytes already there when the
 * server and the task allow it, and the `.part` is renamed to `<name>` once
 * complete or kept (or, for a task that cannot resume, discarded) on pause.
 *
 * The network and the pause checks are inputs (`Inputs`): the responses of
 * the HEAD requests, the GET response, the pause check answers, and what the
 * HLS downloader would receive. The callbacks the downloaders make are
 * applied in the order they are made, after the transfer has been worked
 * out: nothing the callbacks do feeds back into the transfer.
 */
module DownloadExecution {
  import opened Common
  import opened Strings
  import opened Tasks
  import opened QueueOrder
  import opened TaskTable
  import opened Repository
  import opened FileWriting
  import opened HttpTransfer
  import HlsDownload
  import Urls

  // ---------------------------------------------------------------------------
  // Names
  // ---------------------------------------------------------------------------

  /** `_is_hls_stream(url)`: the URL ends in ".m3u8", in any case. */
  predicate IsHlsStream(url: string) {
    EndsWith(Lower(url), ".m3u8")
  }

  /**
   * `_extract_filename_from_url(url)`, given `urlparse(url).path`: the base
   * name of the path, or None when it is empty or "/".
   */
  function FilenameFromPath(path: string): Option<string> {
    var name := AfterLast(path, '/');
    if name == "" || name == "/" then None else Some(name)
  }

  /** `urlparse(url).path`: the path the file name is taken from. */
  function UrlPath(url: string): string {
    Urls.ParseUrl(url).path
  }

  /** The file name of a regular download: the URL's base name, or `download_<id>`. */
  function RegularName(path: string, id: TaskId): string {
    match FilenameFromPath(path)
    case Some(name) => name
    case None => "download_" + NatToString(id)
  }

  /** The output name of an HLS download: the URL's base name or `hls_<id>.mp4`, with ".mp4" appended unless present. */
  function HlsName(path: string, id: TaskId): string {
    var name := match FilenameFromPath(path) case Some(n) => n case None => "hls_" + NatToString(id) + ".mp4";
    if EndsWith(name, ".mp4") then name else name + ".mp4"
  }

  // ---------------------------------------------------------------------------
  // The task fields the download writes
  // ---------------------------------------------------------------------------

  /** A number Python treats as true. */
  predicate Truthy(n: Option<int>) {
    n.Some? && n.value != 0
  }

  /**
   * The capability check of `_execute_regular_download`: a task whose capability was never checked takes the
   * resumability the HEAD response shows, is marked checked, and takes the
   * Content-Length as its total when it has no total yet.
   */
  function Capability(t: DownloadTask, head: Head): DownloadTask {
    if t.capabilityChecked then t
    else
      var details := GetContentDetails(head);
      t.(resumable := details.resumable, capabilityChecked := true,
         total := if Truthy(details.length) && !Truthy(t.total) then details.length else t.total)
  }

  /**
   * The resume decision of `_execute_regular_download`: resume only when something was downloaded, the server takes
   * ranges, the task is resumable and the `.part` holds exactly that many bytes.
   */
  predicate ResumeFrom(t: DownloadTask, dir: Dir, name: string, ranged: bool) {
    t.downloaded > 0 && ranged && t.resumable
    && PartName(name) in dir && |dir[PartName(name)]| == t.downloaded
  }

  /** The first byte requested. */
  function StartByte(t: DownloadTask, resume: bool): int {
    if resume then t.downloaded else 0
  }

  /** The total passed to `download`: the task's, unless the fallback branch omits it. */
  function GivenTotal(t: DownloadTask, ranged: bool): Option<int> {
    if ranged && t.resumable then t.total else None
  }

  /** `on_chunk`: the cumulative count becomes `downloaded`, and a positive total replaces the task's. */
  function AfterChunk(t: DownloadTask, c: ChunkCall): DownloadTask {
    t.(downloaded := c.downloaded, total := if c.total.Some? && c.total.value > 0 then c.total else t.total)
  }

  /** The task after the callbacks for `calls`, in order; only the progress fields change. */
  function AfterChunks(t: DownloadTask, calls: seq<ChunkCall>): (r: DownloadTask)
    ensures r == t.(downloaded := r.downloaded, total := r.total)
    decreases |calls|
  {
    if calls == [] then t else AfterChunk(AfterChunks(t, calls[..|calls| - 1]), calls[|calls| - 1])
  }

  /** The HLS `progress_callback`: only the count is written, the total being None. */
  function AfterProgress(t: DownloadTask, progress: seq<int>): (r: DownloadTask)
    ensures r == t.(downloaded := r.downloaded)
  {
    if progress == [] then t else t.(downloaded := progress[|progress| - 1])
  }

  // ---------------------------------------------------------------------------
  // What one execution does
  // ---------------------------------------------------------------------------

  /**
   * The world outside the model, as seen by one execution: the HEAD
   * responses of `get_content_details` and `check_range_support`, the GET
   * response, the answers of the pause check during the transfer
   * and after it, and the playlist, `urljoin`, float test and segment
   * responses of an HLS download.
   */
  datatype Inputs = Inputs(
    head: Head,
    rangeHead: Head,
    response: GetResponse,
    during: nat -> bool,
    after: bool,
    playlist: Option<string>,
    urljoin: string -> string -> string,
    isFloat: string -> bool,
    fetch: string -> Option<Bytes>)

  /** The task as last written, the directory, the writer's file object and how the call ends. */
  datatype Run = Run(task: DownloadTask, dir: Dir, handle: Handle, outcome: Outcome)

  /** The end of `_execute_regular_download`: after the transfer, a pause closes the file; otherwise it is finalized. */
  function Settled(t: DownloadTask, d: Dir, name: string, after: bool): Run {
    if after then
      if !t.resumable && t.downloaded > 0 then Run(t.(downloaded := 0), d - {PartName(name)}, Closed, Done)
      else Run(t, d, Closed, Done)
    else
      match Finalized(d, name)
      case Ok(d2) => Run(t, d2, Closed, Done)
      case Err(e) => Run(t, d - {name}, Closed, Raised(e))
  }

  /** `_execute_regular_download(task, pause_check)`, downloading into `name`. */
  function RegularRun(t: DownloadTask, dir: Dir, name: string, env: Inputs): Run {
    var t1 := Capability(t, env.head);
    var ranged := CheckRangeSupport(env.rangeHead);
    var resume := ResumeFrom(t1, dir, name, ranged);
    var d1 := Opened(dir, name, resume).0;
    match DownloadCalls(StartByte(t1, resume), GivenTotal(t1, ranged), env.response, env.during)
    case Err(e) => Run(t1, d1, Writing, Raised(e))
    case Ok(calls) =>
      Settled(AfterChunks(t1, calls), d1[PartName(name) := d1[PartName(name)] + Delivered(calls)], name, env.after)
  }

  /**
   * `_execute_hls_download(task, pause_check)`, writing to `name`: the
   * downloader's answer is not looked at.
   */
  function HlsRun(t: DownloadTask, dir: Dir, handle: Handle, name: string, env: Inputs): Run {
    var v := HlsDownload.VariantDownload(t.url, name, env.playlist, env.urljoin, env.isFloat, env.fetch, env.during, dir);
    Run(AfterProgress(t, v.progress), v.dir, handle, Done)
  }

  /** The tasks table, the directory, the writer's file object and how `execute` ends. */
  datatype Effect = Effect(rows: Rows, dir: Dir, handle: Handle, outcome: Outcome)

  /** `execute(task_id, pause_check)`. */
  function Executed(rows: Rows, dir: Dir, handle: Handle, id: TaskId, env: Inputs): Effect {
    match FindTask(rows, id)
    case None => Effect(rows, dir, handle, Raised(NotFound))
    case Some(t) =>
      if t.status != Downloading then Effect(rows, dir, handle, Raised(InvalidState))
      else
        var run := RunOf(t, dir, handle, UrlPath(t.url), env);
        Effect(UpdateRows(rows, run.task), run.dir, run.handle, run.outcome)
  }

  /** The download `execute` runs for a task it accepted, naming the file after the URL's `path`. */
  function RunOf(t: DownloadTask, dir: Dir, handle: Handle, path: string, env: Inputs): Run {
    if IsHlsStream(t.url) then HlsRun(t, dir, handle, HlsName(path, t.id), env)
    else RegularRun(t, dir, RegularName(path, t.id), env)
  }

  // ---------------------------------------------------------------------------
  // Properties
  // ---------------------------------------------------------------------------

  /** The body the server sent before the first pause, or nothing when the request failed. */
  function Body(env: Inputs): Bytes {
    match env.response
    case GetFailed => []
    case GetOk(_, _, chunks) => Concat(chunks[..StopIndex(|chunks|, env.during, 0)])
  }

  /** The regular download of `t` into `name` resumes from its `.part`. */
  predicate Resumes(t: DownloadTask, dir: Dir, name: string, env: Inputs) {
    ResumeFrom(Capability(t, env.head), dir, name, CheckRangeSupport(env.rangeHead))
  }

  /**
   * The name taken from a URL is the last segment of its path: non-empty,
   * without '/', and a suffix of the path right after a '/' or at its start.
   * There is none exactly when the path is empty or ends in '/', so the
   * comparison with "/" never decides anything.
   */
  lemma FilenameIsBaseName(path: string)
    ensures var r := FilenameFromPath(path);
      && (r.None? <==> path == [] || path[|path| - 1] == '/')
      && (r.Some? ==> r.value != [] && '/' !in r.value && EndsWith(path, r.value)
                      && (|r.value| < |path| ==> path[|path| - |r.value| - 1] == '/'))
  {
    var name := AfterLast(path, '/');
    if path != [] && path[|path| - 1] != '/' {
      assert name[|name| - 1] == path[|path| - 1];
    }
  }

  /**
   * The file of a download from an http(s) URL is named after the last
   * segment of the URL's path, whatever query follows it: for
   * "https://host/dir/name?q" it is "name".
   */
  lemma RegularNameOfUrl(url: string, scheme: string, netloc: string, dir: string, name: string,
                         query: string, hasQuery: bool, id: TaskId)
    requires url == scheme + "://" + netloc + dir + "/" + name + (if hasQuery then "?" + query else "")
    requires scheme == "http" || scheme == "https"
    requires '/' !in netloc && '?' !in netloc && '#' !in netloc
    requires (dir == [] || dir[0] == '/') && '?' !in dir && '#' !in dir && '#' !in query
    requires name != [] && '/' !in name && ';' !in name && '?' !in name && '#' !in name
    ensures UrlPath(url) == dir + "/" + name
    ensures RegularName(UrlPath(url), id) == name
  {
    var path := dir + "/" + name;
    assert path[0] == '/';
    assert '?' !in path && '#' !in path;
    Urls.SplitOfJoined(url, scheme, netloc, path, query, hasQuery);
    assert path[|path| - |name|..] == name;
    assert path[|path| - |name| - 1] == '/';
    AfterLastUnique(path, '/', name);
    Urls.ParamFreeIff(path);
    assert name != "/";
  }

  /**
   * The output of an HLS download always ends in ".mp4", and a name taken
   * from the URL that already does is kept as it is.
   */
  lemma HlsNameIsMp4(path: string, id: TaskId)
    ensures EndsWith(HlsName(path, id), ".mp4")
    ensures FilenameFromPath(path).Some? && EndsWith(FilenameFromPath(path).value, ".mp4")
            ==> HlsName(path, id) == FilenameFromPath(path).value
  {
    var name := match FilenameFromPath(path) case Some(n) => n case None => "hls_" + NatToString(id) + ".mp4";
    var out := name + ".mp4";
    assert out[|out| - 4..] == ".mp4";
  }

  /** Whether a URL is an HLS stream does not depend on its case. */
  lemma HlsTestIgnoresCase(url: string)
    ensures IsHlsStream(url) <==> IsHlsStream(Lower(url))
  {
    LowerIdempotent(url);
  }

  /**
   * The capability check of `_execute_regular_download`: after it the task is marked checked, its
   * resumability is the HEAD response's, and a total it already had is kept;
   * a task already checked is left as it is.
   */
  lemma CapabilityFacts(t: DownloadTask, head: Head)
    ensures var t1 := Capability(t, head);
      && t1.capabilityChecked
      && t1 == t.(resumable := t1.resumable, capabilityChecked := true, total := t1.total)
      && (!t.capabilityChecked ==> t1.resumable == GetContentDetails(head).resumable)
      && (Truthy(t.total) ==> t1.total == t.total)
      && (t.capabilityChecked ==> t1 == t)
      && Capability(t1, head) == t1
  {
  }

  /** The task a regular run leaves has the id, URL and status it started with. */
  lemma RegularRunKeepsTask(t: DownloadTask, dir: Dir, name: string, env: Inputs)
    ensures var r := RegularRun(t, dir, name, env).task;
      r.id == t.id && r.url == t.url && r.status == t.status && r.capabilityChecked
      && r.resumable == Capability(t, env.head).resumable
  {
  }

  /** The task's count after the callbacks is the offset of the last one. */
  lemma AfterChunksLast(t: DownloadTask, calls: seq<ChunkCall>)
    requires calls != []
    ensures AfterChunks(t, calls).downloaded == calls[|calls| - 1].downloaded
  {
  }

  /**
   * What a regular run wrote to the `.part`, and the task's count: the bytes
   * kept when resuming followed by the body received, and a count equal to
   * their length unless a fresh start received nothing.
   */
  lemma PartAfterTransfer(t: DownloadTask, dir: Dir, name: string, env: Inputs)
    requires DownloadCalls(StartByte(Capability(t, env.head), Resumes(t, dir, name, env)),
                           GivenTotal(Capability(t, env.head), CheckRangeSupport(env.rangeHead)),
                           env.response, env.during).Ok?
    ensures var t1 := Capability(t, env.head);
      var resume := Resumes(t, dir, name, env);
      var calls := DownloadCalls(StartByte(t1, resume), GivenTotal(t1, CheckRangeSupport(env.rangeHead)),
                                 env.response, env.during).value;
      var d1 := Opened(dir, name, resume).0;
      var part := (if resume then dir[PartName(name)] else []) + Body(env);
      && env.response.GetOk?
      && PartName(name) in d1
      && d1[PartName(name)] + Delivered(calls) == part
      && (resume || Body(env) != [] ==> AfterChunks(t1, calls).downloaded == |part|)
      && (!resume && Body(env) == [] ==> AfterChunks(t1, calls).downloaded == t1.downloaded)
      && (forall f | f != PartName(name) :: (f in d1 <==> f in dir) && (f in d1 ==> d1[f] == dir[f]))
  {
    var t1 := Capability(t, env.head);
    var resume := Resumes(t, dir, name, env);
    var ranged := CheckRangeSupport(env.rangeHead);
    var chunks := env.response.chunks;
    var read := chunks[..StopIndex(|chunks|, env.during, 0)];
    var total := TotalSize(GivenTotal(t1, ranged), env.response.headers).value;
    var calls := Calls(read, StartByte(t1, resume), total);
    OpenedContents(dir, name, resume);
    CallsOffsets(read, StartByte(t1, resume), total);
    if calls != [] {
      AfterChunksLast(t1, calls);
    }
  }

  /**
   * A regular download that completes leaves the file under its name holding
   * the bytes kept when resuming followed by the body received, removes the
   * `.part`, leaves every other file alone, and records a count equal to the
   * file's length unless a fresh start received nothing.
   */
  lemma CompletedFileContents(t: DownloadTask, dir: Dir, name: string, env: Inputs)
    requires !env.after && RegularRun(t, dir, name, env).outcome == Done
    ensures var run := RegularRun(t, dir, name, env);
      var file := (if Resumes(t, dir, name, env) then dir[PartName(name)] else []) + Body(env);
      && env.response.GetOk? && run.handle == Closed
      && name in run.dir && run.dir[name] == file && PartName(name) !in run.dir
      && (Resumes(t, dir, name, env) || Body(env) != [] ==> run.task.downloaded == |file|)
      && (forall f | f != name && f != PartName(name) :: (f in run.dir <==> f in dir) && (f in run.dir ==> run.dir[f] == dir[f]))
  {
    var t1 := Capability(t, env.head);
    var resume := Resumes(t, dir, name, env);
    var calls := DownloadCalls(StartByte(t1, resume), GivenTotal(t1, CheckRangeSupport(env.rangeHead)),
                               env.response, env.during);
    assert calls.Ok?;
    PartAfterTransfer(t, dir, name, env);
    var d1 := Opened(dir, name, resume).0;
    var d2 := d1[PartName(name) := d1[PartName(name)] + Delivered(calls.value)];
    FinalizedContents(d2, name);
  }

  /**
   * On pause a resumable task keeps its `.part` holding as many bytes as its
   * count says, unless a fresh start received nothing; a task that cannot
   * resume loses its `.part` bytes and its count is 0. No file is finalized.
   */
  lemma PauseKeepsResumePoint(t: DownloadTask, dir: Dir, name: string, env: Inputs)
    requires env.after && RegularRun(t, dir, name, env).outcome == Done
    ensures var run := RegularRun(t, dir, name, env);
      && run.handle == Closed
      && (run.task.resumable && (Resumes(t, dir, name, env) || Body(env) != []) ==>
            PartName(name) in run.dir && |run.dir[PartName(name)]| == run.task.downloaded)
      && (!run.task.resumable ==>
            run.task.downloaded == (if Body(env) == [] && t.downloaded < 0 then t.downloaded else 0)
            && (PartName(name) in run.dir ==> run.dir[PartName(name)] == []))
      && (forall f | f != PartName(name) :: (f in run.dir <==> f in dir) && (f in run.dir ==> run.dir[f] == dir[f]))
  {
    var t1 := Capability(t, env.head);
    var resume := Resumes(t, dir, name, env);
    var calls := DownloadCalls(StartByte(t1, resume), GivenTotal(t1, CheckRangeSupport(env.rangeHead)),
                               env.response, env.during);
    assert calls.Ok?;
    PartAfterTransfer(t, dir, name, env);
    var t2 := AfterChunks(t1, calls.value);
    var d1 := Opened(dir, name, resume).0;
    var d2 := d1[PartName(name) := d1[PartName(name)] + Delivered(calls.value)];
    assert RegularRun(t, dir, name, env) == Settled(t2, d2, name, true);
    if !t1.resumable {
      assert !resume;
      assert Body(env) != [] ==> t2.downloaded == |Body(env)| > 0;
    }
  }

  /**
   * On pause, a task that cannot resume and has counted bytes is written
   * back with its count reset to 0 and the status it was read with, so a
   * task read in DOWNLOADING is written DOWNLOADING after the pause check
   * found it paused.
   */
  lemma PausedResetWritesStaleStatus(t: DownloadTask, d: Dir, name: string)
    requires !t.resumable && t.downloaded > 0
    ensures var run := Settled(t, d, name, true);
      run.task == t.(downloaded := 0) && run.task.status == t.status && run.outcome == Done
  {
  }

  /**
   * A resumable download paused after receiving bytes is resumed by the next
   * run against a server that takes ranges, and once that run completes the
   * file holds the first body followed by the second.
   */
  lemma PauseThenResume(t: DownloadTask, dir: Dir, name: string, env1: Inputs, env2: Inputs)
    requires env1.after && RegularRun(t, dir, name, env1).outcome == Done
    requires Capability(t, env1.head).resumable && !Resumes(t, dir, name, env1) && Body(env1) != []
    requires CheckRangeSupport(env2.rangeHead)
    ensures var run1 := RegularRun(t, dir, name, env1);
      && Resumes(run1.task, run1.dir, name, env2)
      && (!env2.after && RegularRun(run1.task, run1.dir, name, env2).outcome == Done ==>
            RegularRun(run1.task, run1.dir, name, env2).dir[name] == Body(env1) + Body(env2))
  {
    var run1 := RegularRun(t, dir, name, env1);
    PauseKeepsResumePoint(t, dir, name, env1);
    PartAfterTransfer(t, dir, name, env1);
    RegularRunKeepsTask(t, dir, name, env1);
    assert run1.dir[PartName(name)] == Body(env1);
    assert Capability(run1.task, env2.head) == run1.task;
    if !env2.after && RegularRun(run1.task, run1.dir, name, env2).outcome == Done {
      CompletedFileContents(run1.task, run1.dir, name, env2);
    }
  }

  /** A request that fails raises with the `.part` opened and left as opened, and no callback made. */
  lemma FailedRequestRaises(t: DownloadTask, dir: Dir, name: string, env: Inputs)
    requires env.response.GetFailed?
    ensures RegularRun(t, dir, name, env)
        == Run(Capability(t, env.head), Opened(dir, name, Resumes(t, dir, name, env)).0, Writing, Raised(ForeignError))
  {
  }

  /**
   * `execute` raises ValueError for an unknown id and for a task not in
   * DOWNLOADING, changing nothing; otherwise only that task's row is written,
   * it stays in DOWNLOADING, and the only error that can escape comes from
   * the transfer or the rename.
   */
  lemma ExecuteGuards(rows: Rows, dir: Dir, handle: Handle, id: TaskId, env: Inputs)
    requires UniqueIds(rows)
    ensures var e := Executed(rows, dir, handle, id, env);
      && (e.outcome == Raised(NotFound) <==> !HasId(rows, id))
      && (e.outcome == Raised(InvalidState) <==> HasId(rows, id) && FindTask(rows, id).value.status != Downloading)
      && (e.outcome.Raised? && e.outcome.error in {NotFound, InvalidState} ==> e == Effect(rows, dir, handle, e.outcome))
      && (e.outcome == Done || e.outcome == Raised(NotFound) || e.outcome == Raised(InvalidState)
          || e.outcome == Raised(ForeignError))
      && (HasId(rows, id) ==> FindTask(e.rows, id).Some? && FindTask(e.rows, id).value.status == FindTask(rows, id).value.status
                              && FindTask(e.rows, id).value.url == FindTask(rows, id).value.url)
      && (forall k | k != id :: FindTask(e.rows, k) == FindTask(rows, k))
  {
    var found := FindTask(rows, id);
    if found.Some? && found.value.status == Downloading {
      var t := found.value;
      var run := RunOf(t, dir, handle, UrlPath(t.url), env);
      RunKeepsTask(t, dir, handle, UrlPath(t.url), env);
      UpdateOnlyThatRow(rows, run.task);
    }
  }

  /** An accepted task's run keeps its id, URL and status, and raises nothing but a transfer or rename error. */
  lemma RunKeepsTask(t: DownloadTask, dir: Dir, handle: Handle, path: string, env: Inputs)
    ensures var run := RunOf(t, dir, handle, path, env);
      && run.task.id == t.id && run.task.url == t.url && run.task.status == t.status
      && (run.outcome == Done || run.outcome == Raised(ForeignError))
  {
    if IsHlsStream(t.url) {
      HlsRunKeepsTask(t, dir, handle, HlsName(path, t.id), env);
    } else {
      RegularRunKeepsTask(t, dir, RegularName(path, t.id), env);
    }
  }

  /** An HLS run keeps the task's id, URL and status and never raises. */
  lemma HlsRunKeepsTask(t: DownloadTask, dir: Dir, handle: Handle, name: string, env: Inputs)
    ensures var run := HlsRun(t, dir, handle, name, env);
      run.task.id == t.id && run.task.url == t.url && run.task.status == t.status && run.outcome == Done
  {
  }

  /** Writing a row changes what `get` returns for that id only, keeping its url. */
  lemma UpdateOnlyThatRow(rows: Rows, t: DownloadTask)
    requires UniqueIds(rows) && HasId(rows, t.id)
    ensures FindTask(UpdateRows(rows, t), t.id) == Some(t.(url := FindTask(rows, t.id).value.url))
    ensures forall k | k != t.id :: FindTask(UpdateRows(rows, t), k) == FindTask(rows, k)
  {
    GetAfterUpdate(rows, t, t.id);
    forall k | k != t.id ensures FindTask(UpdateRows(rows, t), k) == FindTask(rows, k) {
      GetAfterUpdate(rows, t, k);
    }
  }

  /**
   * An HLS download never raises, writes nothing but its ".mp4" output, and
   * writes that only when every segment was fetched with no pause, as the
   * segments in order.
   */
  lemma HlsRunOutput(t: DownloadTask, dir: Dir, handle: Handle, env: Inputs)
    ensures var name := HlsName(UrlPath(t.url), t.id);
      var run := HlsRun(t, dir, handle, name, env);
      var uris := HlsDownload.SegmentUris(t.url, env.playlist, env.urljoin, env.isFloat);
      && run.outcome == Done && run.handle == handle && EndsWith(name, ".mp4")
      && (run.dir == dir || (uris.Ok? && run.dir == dir[name := Concat(HlsDownload.Bodies(uris.value, env.fetch))]))
      && (run.dir != dir ==> forall j | 0 <= j < |uris.value| :: !env.during(j) && env.fetch(uris.value[j]).Some?)
      && run.task == t.(downloaded := run.task.downloaded)
  {
    var name := HlsName(UrlPath(t.url), t.id);
    HlsNameIsMp4(UrlPath(t.url), t.id);
    HlsDownload.DownloadOutcome(t.url, name, env.playlist, env.urljoin, env.isFloat, env.fetch, env.during, dir);
  }

  // ---------------------------------------------------------------------------
  // The service
  // ---------------------------------------------------------------------------

  class DownloadExecutionService {
    const repo: TaskStore
    const writer: FileWriter

    ghost predicate Valid()
      reads this, repo, writer
    {
      repo.Valid() && writer.Valid()
    }

    constructor (repo: TaskStore, writer: FileWriter)
      requires repo.Valid() && writer.Valid()
      ensures Valid() && this.repo == repo && this.writer == writer
    {
      this.repo := repo;
      this.writer := writer;
    }

    /**
     * `execute(task_id, pause_check)`: an unknown task and a task not in
     * DOWNLOADING raise ValueError; otherwise the HLS or the regular download runs.
     */
    method Execute(id: TaskId, env: Inputs) returns (r: Outcome)
      requires Valid()
      modifies repo, writer
      ensures Valid() && repo.archive == old(repo.archive)
      ensures Effect(repo.tasks, writer.dir, writer.handle, r)
           == Executed(old(repo.tasks), old(writer.dir), old(writer.handle), id, env)
    {
      var found := repo.Get(id);
      if found.None? {
        return Raised(NotFound);
      }
      var t := found.value;
      if t.status != Downloading {
        return Raised(InvalidState);
      }
      ghost var rows := repo.tasks;
      UpdateStored(rows, t);
      if IsHlsStream(t.url) {
        r := ExecuteHls(t, HlsName(UrlPath(t.url), t.id), env, rows);
      } else {
        r := ExecuteRegular(t, RegularName(UrlPath(t.url), t.id), env, rows);
      }
    }

    /** `_execute_hls_download`: the output `name` goes to the writer's directory. */
    method ExecuteHls(t: DownloadTask, name: string, env: Inputs, ghost rows: Rows) returns (r: Outcome)
      requires Valid() && repo.tasks == UpdateRows(rows, t)
      modifies repo, writer
      ensures Valid() && repo.archive == old(repo.archive)
      ensures var run := HlsRun(t, old(writer.dir), old(writer.handle), name, env);
        && repo.tasks == UpdateRows(rows, run.task)
        && writer.dir == run.dir && writer.handle == run.handle && r == run.outcome
    {
      var success, progress, d :=
        HlsDownload.DownloadVariant(t.url, name, env.playlist, env.urljoin, env.isFloat, env.fetch, env.during, writer.dir);
      HlsDownload.DownloadOutcome(t.url, name, env.playlist, env.urljoin, env.isFloat, env.fetch, env.during, writer.dir);
      writer.dir := d;
      var t2 := ApplyProgress(t, progress, rows);
      r := Done;
    }

    /** The HLS `progress_callback` calls, in order: each writes the count and saves the task. */
    method ApplyProgress(t: DownloadTask, progress: seq<int>, ghost rows: Rows) returns (t2: DownloadTask)
      requires Valid() && repo.tasks == UpdateRows(rows, t)
      modifies repo
      ensures Valid() && repo.archive == old(repo.archive)
      ensures t2 == AfterProgress(t, progress) && repo.tasks == UpdateRows(rows, t2)
    {
      t2 := t;
      for i := 0 to |progress|
        invariant Valid() && repo.archive == old(repo.archive)
        invariant t2 == AfterProgress(t, progress[..i]) && repo.tasks == UpdateRows(rows, t2)
      {
        var next := t2.(downloaded := progress[i]);
        UpdateTwice(rows, t2, next);
        t2 := next;
        repo.Update(t2);
        assert progress[..i + 1][i] == progress[i];
      }
      assert progress[..|progress|] == progress;
    }

    /** `_execute_regular_download`. */
    method ExecuteRegular(t: DownloadTask, name: string, env: Inputs, ghost rows: Rows) returns (r: Outcome)
      requires Valid() && repo.tasks == UpdateRows(rows, t)
      modifies repo, writer
      ensures Valid() && repo.archive == old(repo.archive)
      ensures var run := RegularRun(t, old(writer.dir), name, env);
        && repo.tasks == UpdateRows(rows, run.task)
        && writer.dir == run.dir && writer.handle == run.handle && r == run.outcome
    {
      var t1 := CheckCapability(t, env.head, rows);
      var ranged := CheckRangeSupport(env.rangeHead);
      var start := 0;
      var resume := false;
      if t1.downloaded > 0 && ranged && t1.resumable {
        var part := PartName(name);
        if part in writer.dir && |writer.dir[part]| == t1.downloaded {
          resume := true;
          start := t1.downloaded;
        }
      }
      writer.Open(name, resume);
      if resume {
        var size := writer.GetCurrentSize();
        if start != size.value {
          // The size correction after `writer.open` cannot run: the `.part` was opened at exactly `start` bytes.
          assert false;
        }
      }
      var rangeHeader, calls;
      if ranged && start > 0 && t1.resumable {
        rangeHeader, calls := Download(start, t1.total, env.response, env.during);
      } else if ranged && t1.resumable {
        rangeHeader, calls := Download(0, t1.total, env.response, env.during);
      } else {
        if start > 0 {
          // The restart of the fallback branch cannot run: a non-zero start needs range support and resumability.
          assert false;
        }
        rangeHeader, calls := Download(0, None, env.response, env.during);
      }
      if calls.Err? {
        return Raised(calls.error);
      }
      var t2 := ApplyChunks(t1, calls.value, rows);
      var t3;
      t3, r := Settle(t2, name, env.after, rows);
    }

    /** The capability check of `_execute_regular_download`, saved when it ran. */
    method CheckCapability(t: DownloadTask, head: Head, ghost rows: Rows) returns (t1: DownloadTask)
      requires Valid() && repo.tasks == UpdateRows(rows, t)
      modifies repo
      ensures Valid() && repo.archive == old(repo.archive)
      ensures t1 == Capability(t, head) && repo.tasks == UpdateRows(rows, t1)
    {
      t1 := t;
      if !t.capabilityChecked {
        var details := GetContentDetails(head);
        t1 := t1.(resumable := details.resumable, capabilityChecked := true);
        if Truthy(details.length) && !Truthy(t1.total) {
          t1 := t1.(total := details.length);
        }
        UpdateTwice(rows, t, t1);
        repo.Update(t1);
      }
    }

    /** The `on_chunk` calls, in order: write the chunk, record the progress, save the task. */
    method ApplyChunks(t: DownloadTask, calls: seq<ChunkCall>, ghost rows: Rows) returns (t2: DownloadTask)
      requires Valid() && writer.handle == Writing && repo.tasks == UpdateRows(rows, t)
      modifies repo, writer
      ensures Valid() && repo.archive == old(repo.archive)
      ensures t2 == AfterChunks(t, calls) && repo.tasks == UpdateRows(rows, t2)
      ensures writer.handle == Writing && writer.tmp == old(writer.tmp) && writer.final == old(writer.final)
      ensures writer.dir == old(writer.dir)[writer.tmp := old(writer.dir)[writer.tmp] + Delivered(calls)]
    {
      t2 := t;
      ghost var d0 := writer.dir;
      assert d0[writer.tmp] + Delivered(calls[..0]) == d0[writer.tmp];
      assert d0[writer.tmp := d0[writer.tmp]] == d0;
      for i := 0 to |calls|
        invariant Valid() && repo.archive == old(repo.archive)
        invariant writer.handle == Writing && writer.tmp == old(writer.tmp) && writer.final == old(writer.final)
        invariant t2 == AfterChunks(t, calls[..i]) && repo.tasks == UpdateRows(rows, t2)
        invariant writer.dir == d0[writer.tmp := d0[writer.tmp] + Delivered(calls[..i])]
      {
        var c := calls[i];
        assert calls[..i + 1][..i] == calls[..i];
        assert Delivered(calls[..i + 1]) == Delivered(calls[..i]) + c.chunk;
        assert d0[writer.tmp] + Delivered(calls[..i + 1]) == (d0[writer.tmp] + Delivered(calls[..i])) + c.chunk;
        var written := writer.Write(c.chunk);
        var next := AfterChunk(t2, c);
        UpdateTwice(rows, t2, next);
        t2 := next;
        repo.Update(t2);
      }
      assert calls[..|calls|] == calls;
    }

    /** The end of `_execute_regular_download`: close and maybe discard on pause, finalize otherwise. */
    method Settle(t: DownloadTask, name: string, after: bool, ghost rows: Rows) returns (t3: DownloadTask, r: Outcome)
      requires Valid() && writer.handle == Writing && writer.tmp == PartName(name) && writer.final == name
      requires repo.tasks == UpdateRows(rows, t)
      modifies repo, writer
      ensures Valid() && repo.archive == old(repo.archive)
      ensures Run(t3, writer.dir, writer.handle, r) == Settled(t, old(writer.dir), name, after)
      ensures repo.tasks == UpdateRows(rows, t3)
    {
      t3 := t;
      if after {
        writer.Close();
        if !t.resumable && t.downloaded > 0 {
          writer.dir := writer.dir - {PartName(name)};
          t3 := t.(downloaded := 0);
          UpdateTwice(rows, t, t3);
          repo.Update(t3);
        }
        return t3, Done;
      }
      r := writer.Finalize();
    }
  }
}
