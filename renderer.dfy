/** `runArticleHTMLRenderer`: the render worker pool. For every job it reads
    the article, renders its markdown to HTML, creates the page's directory
    and file and executes the page template into it; the first step that
    fails ends the job. Every job yields exactly one `renderRes`, and the
    result stream is closed only after the last result has been sent.

    The file system and the loaded template are not modelled: each call the
    worker makes into them is an `Op`, and a `FileSystem` value says how each
    such call turns out. The markdown renderer is an opaque total function. */
module Renderer {
  import opened Results
  import opened GoPath
  import opened Conduits
  import opened Translation

  newtype byte = x: int | 0 <= x < 256

  /** The record the page template is executed with (`tmplData`). */
  datatype ArticleData = ArticleData(title: string, createdAt: string, content: seq<byte>)

  /** The placeholder metadata every page is rendered with. */
  const Title := "title"
  const CreatedAt := "23/07/23"

  /** One call the worker makes into the file system or the template. */
  datatype Op =
    | ReadFile(path: string)                   // os.ReadFile
    | MkdirAll(dir: string)                    // os.MkdirAll, mode 0777
    | Create(path: string)                     // os.Create
    | Execute(path: string, data: ArticleData) // tmpl.Execute into the created file

  /** How the environment answers those calls. */
  datatype FileSystem = FileSystem(
    readFile: string -> Res<seq<byte>>,
    mkdirAll: string -> Option<Error>,
    create: string -> Option<Error>,
    execute: (string, ArticleData) -> Option<Error>)

  /** `renderRes`: the page written, or the article that failed and why. */
  datatype RenderRes = RenderRes(path: string, err: Option<Error>)

  /** The error an operation reports; `None` is Go's nil. */
  function OpError(fs: FileSystem, op: Op): Option<Error>
  {
    match op
    case ReadFile(p) => fs.readFile(p).err
    case MkdirAll(d) => fs.mkdirAll(d)
    case Create(p) => fs.create(p)
    case Execute(p, data) => fs.execute(p, data)
  }

  /** The four calls of a job, in the order the worker makes them when each
      one succeeds; the template gets the article rendered by `markdown`. */
  function Plan(job: RenderJob, fs: FileSystem, markdown: seq<byte> -> seq<byte>): (ops: seq<Op>)
    ensures |ops| == 4
  {
    var body := markdown(fs.readFile(job.inPath).ok);
    [ ReadFile(job.inPath),
      MkdirAll(Dir(job.outPath)),
      Create(job.outPath),
      Execute(job.outPath, ArticleData(Title, CreatedAt, body)) ]
  }

  /** The position of the first operation of `ops` that fails; `|ops|` when none does. */
  function FirstFailure(fs: FileSystem, ops: seq<Op>): (k: nat)
    ensures k <= |ops|
    ensures forall i :: 0 <= i < k ==> OpError(fs, ops[i]).None?
    ensures k < |ops| ==> OpError(fs, ops[k]).Some?
  {
    if ops == [] then 0
    else if OpError(fs, ops[0]).Some? then 0
    else 1 + FirstFailure(fs, ops[1..])
  }

  /** The calls a job makes: its plan up to and including the first failing one. */
  function Attempted(job: RenderJob, fs: FileSystem, markdown: seq<byte> -> seq<byte>): seq<Op>
  {
    var plan := Plan(job, fs, markdown);
    var k := FirstFailure(fs, plan);
    if k < |plan| then plan[..k + 1] else plan
  }

  /** The result a job yields: the failing step's error reported against the
      article, or the page path with a nil error when every step succeeded. */
  function Outcome(job: RenderJob, fs: FileSystem, markdown: seq<byte> -> seq<byte>): RenderRes
  {
    var plan := Plan(job, fs, markdown);
    var k := FirstFailure(fs, plan);
    if k < |plan| then RenderRes(job.inPath, OpError(fs, plan[k])) else RenderRes(job.outPath, None)
  }

  /** The body of the worker goroutine for one job, with Go's early returns.
      It returns the result it sends and the calls it made. */
  method RenderArticle(job: RenderJob, fs: FileSystem, markdown: seq<byte> -> seq<byte>)
    returns (res: RenderRes, calls: seq<Op>)
    ensures res == Outcome(job, fs, markdown)
    ensures calls == Attempted(job, fs, markdown)
  {
    ghost var plan := Plan(job, fs, markdown);
    calls := [ReadFile(job.inPath)];
    var read := fs.readFile(job.inPath);
    if read.err.Some? {
      assert FirstFailure(fs, plan) == 0;
      return RenderRes(job.inPath, read.err), calls;
    }
    var body := markdown(read.ok);

    var dir := Dir(job.outPath);
    calls := calls + [MkdirAll(dir)];
    var err := fs.mkdirAll(dir);
    if err.Some? {
      assert FirstFailure(fs, plan[1..]) == 0;
      assert calls == plan[..2];
      return RenderRes(job.inPath, err), calls;
    }

    calls := calls + [Create(job.outPath)];
    err := fs.create(job.outPath);
    if err.Some? {
      assert FirstFailure(fs, plan[2..]) == 0;
      assert plan[1..][1..] == plan[2..];
      assert calls == plan[..3];
      return RenderRes(job.inPath, err), calls;
    }

    var data := ArticleData(Title, CreatedAt, body);
    calls := calls + [Execute(job.outPath, data)];
    err := fs.execute(job.outPath, data);
    assert plan[1..][1..] == plan[2..];
    assert plan[2..][1..] == plan[3..];
    if err.Some? {
      assert FirstFailure(fs, plan[3..]) == 0;
      assert calls == plan;
      return RenderRes(job.inPath, err), calls;
    }
    assert FirstFailure(fs, plan[3..]) == 1;
    assert calls == plan;
    res := RenderRes(job.outPath, None);
  }

  /** Short-circuiting: the calls made are the first steps of the plan, in
      order; every call but the last succeeded; and a job either stops at a
      call that failed, reporting that call's error against the article, or
      has made all four calls successfully and reports the page. */
  lemma {:induction false} FirstErrorWins(job: RenderJob, fs: FileSystem, markdown: seq<byte> -> seq<byte>)
    ensures var calls := Attempted(job, fs, markdown);
      var res := Outcome(job, fs, markdown);
      && 1 <= |calls| <= 4
      && calls == Plan(job, fs, markdown)[..|calls|]
      && (forall i :: 0 <= i < |calls| - 1 ==> OpError(fs, calls[i]).None?)
      && (res.err.Some? <==> OpError(fs, calls[|calls| - 1]).Some?)
      && (res.err.Some? ==> res.path == job.inPath && res.err == OpError(fs, calls[|calls| - 1]))
      && (res.err.None? ==> res.path == job.outPath && |calls| == 4)
  {
    var plan := Plan(job, fs, markdown);
    var k := FirstFailure(fs, plan);
    if k == |plan| {
      assert plan[..4] == plan;
    }
  }

  /** A job reports its page exactly when every call of its plan succeeds;
      otherwise it reports its article. */
  lemma {:induction false} SuccessOnlyIfAllSucceed(job: RenderJob, fs: FileSystem, markdown: seq<byte> -> seq<byte>)
    ensures var res := Outcome(job, fs, markdown);
      var plan := Plan(job, fs, markdown);
      && (res.err.None? <==> forall i :: 0 <= i < |plan| ==> OpError(fs, plan[i]).None?)
      && res.path == (if res.err.None? then job.outPath else job.inPath)
  {
  }

  /** The calls a job makes go to its own files: it reads its article, and
      it creates the directory of its page, then the page itself. */
  lemma {:induction false} CallTargets(job: RenderJob, fs: FileSystem, markdown: seq<byte> -> seq<byte>)
    ensures var calls := Attempted(job, fs, markdown);
      && calls[0] == ReadFile(job.inPath)
      && (|calls| > 1 ==> calls[1] == MkdirAll(Dir(job.outPath)))
      && (|calls| > 2 ==> calls[2] == Create(job.outPath))
      && (|calls| > 3 ==> calls[3].Execute? && calls[3].path == job.outPath)
  {
  }

  /** The results the pool sends for `jobs`: one per job, each that job's own outcome. */
  function PoolResults(jobs: seq<RenderJob>, fs: FileSystem, markdown: seq<byte> -> seq<byte>): (rs: seq<RenderRes>)
    ensures |rs| == |jobs|
  {
    if jobs == [] then []
    else PoolResults(jobs[..|jobs| - 1], fs, markdown) + [Outcome(jobs[|jobs| - 1], fs, markdown)]
  }

  /** Result `i` is the outcome of job `i` and of nothing else, so one
      article's failure never changes another article's result. */
  lemma {:induction false} ResultOfEachJob(jobs: seq<RenderJob>, fs: FileSystem,
                                           markdown: seq<byte> -> seq<byte>, i: nat)
    requires i < |jobs|
    ensures PoolResults(jobs, fs, markdown)[i] == Outcome(jobs[i], fs, markdown)
  {
    if i < |jobs| - 1 {
      ResultOfEachJob(jobs[..|jobs| - 1], fs, markdown, i);
    }
  }

  /** The pool, sequentialised: each job received is run to completion and
      its one result sent; once the job stream is exhausted the result
      stream is closed, after every result. */
  method RunArticleHTMLRenderer(jobs: Channel<RenderJob>, fs: FileSystem,
                                markdown: seq<byte> -> seq<byte>, res: Channel<RenderRes>)
    requires jobs.closed && !res.closed
    modifies res
    ensures res.closed
    ensures res.sent == old(res.sent) + PoolResults(jobs.sent, fs, markdown)
  {
    var received := jobs.sent;
    ghost var head := res.sent;
    for i := 0 to |received|
      invariant !res.closed
      invariant res.sent == head + PoolResults(received[..i], fs, markdown)
    {
      assert received[..i + 1][..i] == received[..i];
      var r, _ := RenderArticle(received[i], fs, markdown);
      res.Send(r);
    }
    assert received[..|received|] == received;
    res.Close();
  }
}
