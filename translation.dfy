/** The translation goroutine of `main`: it turns each discovered article
    path into a render job, skipping error values and file names that are not
    of the form `<title>.<slug>.<ext>`, and closes the job stream at the end. */
module Translation {
  import opened Results
  import opened GoStrings
  import opened GoPath
  import opened Filtering
  import opened Conduits
  import opened Discovery

  /** `renderJob`: the article to read and the page to write. */
  datatype RenderJob = RenderJob(inPath: string, outPath: string)

  /** The fixed file name of every rendered page. */
  const PageName := "index.html"

  /** The job for the discovered path `p`, if its base name splits on `.`
      into exactly three chunks: the page goes to `<outputDir>/<slug>/index.html`
      where the slug is the middle chunk. */
  function JobFor(outputDir: string, p: string): Option<RenderJob>
  {
    var chunks := Split(Base(p), '.');
    if |chunks| != 3 then None
    else Some(RenderJob(p, Join([outputDir, chunks[1], PageName])))
  }

  /** What one received value contributes: nothing for an error value. The
      value is read as a consumer reads any `Res`, error first. */
  function Translate(outputDir: string, r: Res<string>): Option<RenderJob>
  {
    match Classify(r)
    case Failure(_) => None
    case Success(p) => JobFor(outputDir, p)
  }

  /** `Translate` for the given output root. */
  function Translator(outputDir: string): Res<string> -> Option<RenderJob>
  {
    (r: Res<string>) => Translate(outputDir, r)
  }

  /** The jobs the translation goroutine sends for the received `articles`, in order.
      This is `FilterMap(Translator(outputDir), articles)` written out with a
      direct call of `Translate`: the loop's invariant and the lemmas about
      single steps are stated on it because applying the `Translator` closure
      inside them costs the verifier far more. `JobsIsFilterMap` proves the
      two equal, so the general filter lemmas apply to it. */
  function Jobs(outputDir: string, articles: seq<Res<string>>): seq<RenderJob>
  {
    if articles == [] then []
    else Jobs(outputDir, articles[..|articles| - 1]) + Emit(Translate(outputDir, articles[|articles| - 1]))
  }

  /** The loop is the filter `Translator(outputDir)` over what it receives. */
  lemma {:induction false} JobsIsFilterMap(outputDir: string, articles: seq<Res<string>>)
    ensures Jobs(outputDir, articles) == FilterMap(Translator(outputDir), articles)
  {
    if articles != [] {
      JobsIsFilterMap(outputDir, articles[..|articles| - 1]);
      assert Translator(outputDir)(articles[|articles| - 1]) == Translate(outputDir, articles[|articles| - 1]);
    }
  }

  /** One more value received: it contributes its own job, if any. */
  lemma {:induction false} JobsStep(outputDir: string, articles: seq<Res<string>>, i: nat)
    requires i < |articles|
    ensures Jobs(outputDir, articles[..i + 1]) == Jobs(outputDir, articles[..i]) + Emit(Translate(outputDir, articles[i]))
  {
    assert articles[..i + 1][..i] == articles[..i];
  }

  /** The translation goroutine: it ranges over the closed `articles`
      channel, sends on `jobs` what `Jobs` describes and closes `jobs` only
      after the last article has been received. */
  method TranslateArticles(outputDir: string, articles: Channel<Res<string>>, jobs: Channel<RenderJob>)
    requires articles.closed && !jobs.closed
    modifies jobs
    ensures jobs.closed
    ensures jobs.sent == old(jobs.sent) + Jobs(outputDir, articles.sent)
  {
    var received := articles.sent;
    ghost var head := jobs.sent;
    for i := 0 to |received|
      invariant !jobs.closed
      invariant jobs.sent == head + Jobs(outputDir, received[..i])
    {
      JobsStep(outputDir, received, i);
      var res := received[i];
      if res.err.Some? {
        continue;
      }
      var name := Base(res.ok);
      var chunks := Split(name, '.');
      if |chunks| != 3 {
        continue;
      }
      var outPath := Join([outputDir, chunks[1], PageName]);
      jobs.Send(RenderJob(res.ok, outPath));
    }
    assert received[..|received|] == received;
    jobs.Close();
  }

  /** The format gate: a path yields a job exactly when its base name holds
      exactly two dots, whatever its extension. */
  lemma {:induction false} JobGate(outputDir: string, p: string)
    ensures JobFor(outputDir, p).Some? <==> Count(Base(p), '.') == 2
  {
  }

  /** A job keeps the discovered path unchanged as its input, and its base
      name is `<title>.<slug>.<ext>` with dot-free parts, the slug naming
      the page's directory. */
  lemma {:induction false} JobFields(outputDir: string, p: string)
    requires JobFor(outputDir, p).Some?
    ensures var j := JobFor(outputDir, p).value;
      j.inPath == p &&
      exists title: string, slug: string, ext: string ::
        '.' !in title && '.' !in slug && '.' !in ext &&
        Base(p) == title + "." + slug + "." + ext &&
        j.outPath == Join([outputDir, slug, PageName])
  {
    var c := Split(Base(p), '.');
    PiecesOfThree(Base(p), '.');
    assert Base(p) == c[0] + "." + c[1] + "." + c[2];
  }

  /** Conversely, every base name of the form `<title>.<slug>.<ext>` with
      dot-free parts yields the job for that slug. */
  lemma {:induction false} JobOfName(outputDir: string, p: string, title: string, slug: string, ext: string)
    requires '.' !in title && '.' !in slug && '.' !in ext
    requires Base(p) == title + "." + slug + "." + ext
    ensures JobFor(outputDir, p) == Some(RenderJob(p, Join([outputDir, slug, PageName])))
  {
    ThreePieces(title, slug, ext, '.');
  }

  /** The chunks of an entry name ending in `.md` that splits into three. */
  lemma {:induction false} MarkdownNameChunks(name: string)
    requires EntryName(name) && HasSuffix(name, ".md")
    requires |Split(name, '.')| == 3
    ensures var c := Split(name, '.');
      c[2] == "md" && '.' !in c[1] && '/' !in c[1] && name == c[0] + "." + c[1] + ".md"
  {
    var c := Split(name, '.');
    assert ".md" == ['.'] + "md";
    LastPiece(name, '.', "md");
    PiecesOfThree(name, '.');
    assert name == c[0] + "." + c[1] + "." + c[2];
    assert forall ch :: ch in c[1] ==> ch in name;
  }

  /** For a discovered `.md` entry that passes the gate: the third chunk is
      `md`, the slug holds neither `.` nor `/`, the page is
      `<outputDir>/<slug>/index.html`, and an empty slug (`a..md`) puts the
      page directly at `<outputDir>/index.html`. */
  lemma {:induction false} DiscoveredJob(outputDir: string, dir: string, name: string)
    requires EntryName(name) && HasSuffix(name, ".md")
    requires JobFor(outputDir, Join([dir, name])).Some?
    ensures var chunks := Split(name, '.');
      var j := JobFor(outputDir, Join([dir, name])).value;
      && |chunks| == 3 && chunks[2] == "md"
      && '.' !in chunks[1] && '/' !in chunks[1]
      && name == chunks[0] + "." + chunks[1] + ".md"
      && j.inPath == Join([dir, name])
      && (outputDir != "" && chunks[1] != "" ==> j.outPath == outputDir + "/" + chunks[1] + "/index.html")
      && (outputDir != "" && chunks[1] == "" ==> j.outPath == outputDir + "/index.html")
  {
    BaseOfJoin(dir, name);
    var chunks := Split(name, '.');
    assert |chunks| == 3;
    MarkdownNameChunks(name);
    PagePath(outputDir, chunks[1]);
  }

  /** Where the page for `slug` goes under a non-empty output root. */
  lemma {:induction false} PagePath(outputDir: string, slug: string)
    ensures outputDir != "" && slug != "" ==>
      Join([outputDir, slug, PageName]) == outputDir + "/" + slug + "/index.html"
    ensures outputDir != "" && slug == "" ==>
      Join([outputDir, slug, PageName]) == outputDir + "/index.html"
  {
    JoinThree(outputDir, slug, PageName);
    assert outputDir + "/" + slug + "/" + PageName == outputDir + "/" + slug + "/index.html";
    assert outputDir + "/" + PageName == outputDir + "/index.html";
  }

  /** The jobs, one by one: job `k` comes from the received value at
      position `Sources(..)[k]`, which is not an error and passes the gate;
      those positions strictly increase, so jobs keep input order and no
      value yields two jobs; and every value that is not an error and
      passes the gate yields one. */
  lemma {:induction false} JobsInOrder(outputDir: string, articles: seq<Res<string>>)
    ensures var jobs := Jobs(outputDir, articles);
      var src := Sources(Translator(outputDir), articles);
      && |src| == |jobs| <= |articles|
      && (forall k :: 0 <= k < |src| ==>
            src[k] < |articles| && articles[src[k]].err.None? &&
            JobFor(outputDir, articles[src[k]].ok) == Some(jobs[k]))
      && (forall k, l :: 0 <= k < l < |src| ==> src[k] < src[l])
      && (forall i :: 0 <= i < |articles| && articles[i].err.None? && JobFor(outputDir, articles[i].ok).Some?
            ==> i in src)
  {
    var f := Translator(outputDir);
    JobsIsFilterMap(outputDir, articles);
    FilterMapSources(f, articles);
    var src := Sources(f, articles);
    forall k | 0 <= k < |src|
      ensures articles[src[k]].err.None?
    {
      assert f(articles[src[k]]) == Translate(outputDir, articles[src[k]]);
    }
    forall i | 0 <= i < |articles| && articles[i].err.None? && JobFor(outputDir, articles[i].ok).Some?
      ensures i in src
    {
      assert f(articles[i]) == Translate(outputDir, articles[i]);
    }
  }

  /** Error values never become jobs: removing them changes nothing. */
  lemma {:induction false} ErrorsYieldNoJobs(outputDir: string, before: seq<Res<string>>, r: Res<string>, after: seq<Res<string>>)
    requires r.err.Some?
    ensures Jobs(outputDir, before + [r] + after) == Jobs(outputDir, before) + Jobs(outputDir, after)
  {
    var f := Translator(outputDir);
    JobsIsFilterMap(outputDir, before + [r] + after);
    JobsIsFilterMap(outputDir, before);
    JobsIsFilterMap(outputDir, after);
    assert f(r) == Translate(outputDir, r);
    FilterMapSkip(f, before, r, after);
  }
}
