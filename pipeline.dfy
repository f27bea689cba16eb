/** `main`: the three stages wired together. Discovery feeds translation,
    translation feeds the worker pool, and `main` receives every result until
    the pool closes the result stream. The stages run one after the other
    here; each one's output stream is complete and closed before the next
    one reads it. */
module Pipeline {
  import opened Results
  import opened GoStrings
  import opened GoPath
  import opened Filtering
  import opened Conduits
  import opened Discovery
  import opened Translation
  import opened Renderer

  /** A whole run over the source directory listing `entries` (with the
      listing error `listErr`): the results `main` receives, in order. */
  method Run(sourceDir: string, outputDir: string, entries: seq<DirEntry>, listErr: Option<Error>,
             fs: FileSystem, markdown: seq<byte> -> seq<byte>)
    returns (results: seq<RenderRes>)
    ensures results == PoolResults(Jobs(outputDir, Discover(sourceDir, entries, listErr)), fs, markdown)
  {
    var articles := new Channel<Res<string>>();
    var jobs := new Channel<RenderJob>();
    var res := new Channel<RenderRes>();
    FindArticlesPaths(sourceDir, entries, listErr, articles);
    assert articles.sent == Discover(sourceDir, entries, listErr);
    TranslateArticles(outputDir, articles, jobs);
    assert jobs.sent == Jobs(outputDir, Discover(sourceDir, entries, listErr));
    RunArticleHTMLRenderer(jobs, fs, markdown, res);
    results := res.sent;
  }

  /** Per directory entry, the job the whole front end makes of it. */
  function EntryJob(sourceDir: string, outputDir: string): DirEntry -> Option<RenderJob>
  {
    Then(Select(sourceDir), Translator(outputDir))
  }

  /** Discovery followed by translation is one filter over the directory
      entries; the discovery error, if any, contributes no job. */
  lemma {:induction false} FrontEnd(sourceDir: string, outputDir: string, entries: seq<DirEntry>, listErr: Option<Error>)
    ensures Jobs(outputDir, Discover(sourceDir, entries, listErr)) ==
            FilterMap(EntryJob(sourceDir, outputDir), entries)
  {
    var errs: seq<Res<string>> := if listErr.Some? then [Err("", listErr.value)] else [];
    var found := FilterMap(Select(sourceDir), entries);
    FoundIsFilterMap(sourceDir, entries);
    JobsIsFilterMap(outputDir, errs + found);
    FilterMapAppend(Translator(outputDir), errs, found);
    if listErr.Some? {
      assert Translator(outputDir)(errs[0]) == None;
      assert errs[..0] == [];
    }
    FilterMapThen(Select(sourceDir), Translator(outputDir), entries);
  }

  /** An entry is an article when its path ends in `.md` and its name has
      exactly two dots. */
  predicate IsArticle(sourceDir: string, e: DirEntry)
  {
    HasSuffix(Join([sourceDir, e.name]), ".md") && Count(e.name, '.') == 2
  }

  /** The entry-level reading of one stage after the other: an entry with a
      real name yields a job exactly when it is an article, and that job
      reads the entry's path. */
  lemma {:induction false} EntryJobOf(sourceDir: string, outputDir: string, e: DirEntry)
    requires EntryName(e.name)
    ensures EntryJob(sourceDir, outputDir)(e).Some? <==> IsArticle(sourceDir, e)
    ensures EntryJob(sourceDir, outputDir)(e).Some? ==>
      EntryJob(sourceDir, outputDir)(e).value.inPath == Join([sourceDir, e.name])
  {
    BaseOfJoin(sourceDir, e.name);
    assert Select(sourceDir)(e) == Candidate(sourceDir, e);
    var p := Join([sourceDir, e.name]);
    if HasSuffix(p, ".md") {
      assert Translator(outputDir)(Ok(p)) == Translate(outputDir, Ok(p));
    }
  }

  /** No article is dropped or duplicated: with real entry names, result `k`
      is the outcome of the job for entry `Sources(..)[k]`, an article;
      those entries come in listing order, each at most once; and every
      article among the entries is one of them. */
  lemma {:induction false} EveryArticleOneResult(sourceDir: string, outputDir: string, entries: seq<DirEntry>,
                              listErr: Option<Error>, fs: FileSystem, markdown: seq<byte> -> seq<byte>)
    requires forall i :: 0 <= i < |entries| ==> EntryName(entries[i].name)
    ensures var jobs := Jobs(outputDir, Discover(sourceDir, entries, listErr));
      var results := PoolResults(jobs, fs, markdown);
      var src := Sources(EntryJob(sourceDir, outputDir), entries);
      && |results| == |jobs| == |src|
      && (forall k :: 0 <= k < |src| ==>
            src[k] < |entries| && IsArticle(sourceDir, entries[src[k]]) &&
            jobs[k].inPath == Join([sourceDir, entries[src[k]].name]) &&
            results[k] == Outcome(jobs[k], fs, markdown))
      && (forall k, l :: 0 <= k < l < |src| ==> src[k] < src[l])
      && (forall i :: 0 <= i < |entries| && IsArticle(sourceDir, entries[i]) ==> i in src)
  {
    var f := EntryJob(sourceDir, outputDir);
    FrontEnd(sourceDir, outputDir, entries, listErr);
    FilterMapSources(f, entries);
    var jobs := Jobs(outputDir, Discover(sourceDir, entries, listErr));
    var src := Sources(f, entries);
    forall k | 0 <= k < |src|
      ensures IsArticle(sourceDir, entries[src[k]])
      ensures jobs[k].inPath == Join([sourceDir, entries[src[k]].name])
      ensures PoolResults(jobs, fs, markdown)[k] == Outcome(jobs[k], fs, markdown)
    {
      EntryJobOf(sourceDir, outputDir, entries[src[k]]);
      ResultOfEachJob(jobs, fs, markdown, k);
    }
    forall i | 0 <= i < |entries| && IsArticle(sourceDir, entries[i])
      ensures i in src
    {
      EntryJobOf(sourceDir, outputDir, entries[i]);
    }
  }

  /** The job an article entry `<title>.<slug>.md` of `sourceDir` yields. */
  lemma {:induction false} ArticleEntryJob(sourceDir: string, outputDir: string, title: string, slug: string)
    requires '.' !in title && '.' !in slug && '/' !in title && '/' !in slug
    ensures var name := title + "." + slug + ".md";
      EntryJob(sourceDir, outputDir)(DirEntry(name)) ==
      Some(RenderJob(Join([sourceDir, name]), Join([outputDir, slug, PageName])))
  {
    var name := title + "." + slug + ".md";
    var e := DirEntry(name);
    var p := Join([sourceDir, name]);
    assert Candidate(sourceDir, e) == Some(Ok(p)) by {
      assert name[|name| - 3..] == ".md";
      MarkdownEntry(sourceDir, name);
    }
    assert JobFor(outputDir, p) == Some(RenderJob(p, Join([outputDir, slug, PageName]))) by {
      BaseOfJoin(sourceDir, name);
      assert name == title + "." + slug + "." + "md";
      JobOfName(outputDir, p, title, slug, "md");
    }
    assert Translate(outputDir, Ok(p)) == JobFor(outputDir, p) by {
      assert Classify(Ok(p)) == Success(p);
    }
    assert Select(sourceDir)(e) == Candidate(sourceDir, e);
    assert Translator(outputDir)(Ok(p)) == Translate(outputDir, Ok(p));
  }

  /** An entry whose name ends in `.txt` is never discovered, so it yields no job. */
  lemma {:induction false} TextEntry(sourceDir: string, outputDir: string, y: string)
    requires '/' !in y
    ensures EntryJob(sourceDir, outputDir)(DirEntry(y + ".txt")) == None
  {
    var name := y + ".txt";
    var e := DirEntry(name);
    assert name[|name| - 3] == 't';
    MarkdownEntry(sourceDir, name);
    assert Select(sourceDir)(e) == Candidate(sourceDir, e) == None;
  }

  /** A directory holding two articles, a markdown file with one dot and a
      text file: exactly the two articles become jobs, in listing order,
      each page under its own slug. */
  lemma {:induction false} MixedDirectory(sourceDir: string, outputDir: string,
                       t1: string, s1: string, t2: string, s2: string, x: string, y: string)
    requires '.' !in t1 && '.' !in s1 && '.' !in t2 && '.' !in s2 && '.' !in x
    requires '/' !in t1 && '/' !in s1 && '/' !in t2 && '/' !in s2 && '/' !in x && '/' !in y
    ensures var a, b := t1 + "." + s1 + ".md", t2 + "." + s2 + ".md";
      Jobs(outputDir, Discover(sourceDir, [DirEntry(a), DirEntry(b), DirEntry(x + ".md"),
                                           DirEntry(y + ".txt")], None)) ==
      [RenderJob(Join([sourceDir, a]), Join([outputDir, s1, PageName])),
       RenderJob(Join([sourceDir, b]), Join([outputDir, s2, PageName]))]
  {
    var f := EntryJob(sourceDir, outputDir);
    var a, b := t1 + "." + s1 + ".md", t2 + "." + s2 + ".md";
    var entries := [DirEntry(a), DirEntry(b), DirEntry(x + ".md"), DirEntry(y + ".txt")];
    var j1 := RenderJob(Join([sourceDir, a]), Join([outputDir, s1, PageName]));
    var j2 := RenderJob(Join([sourceDir, b]), Join([outputDir, s2, PageName]));
    assert f(entries[0]) == Some(j1) by {
      ArticleEntryJob(sourceDir, outputDir, t1, s1);
    }
    assert f(entries[1]) == Some(j2) by {
      ArticleEntryJob(sourceDir, outputDir, t2, s2);
    }
    assert f(entries[2]) == None by {
      OneDotEntry(sourceDir, outputDir, x, "md");
      assert x + "." + "md" == x + ".md";
    }
    assert f(entries[3]) == None by {
      TextEntry(sourceDir, outputDir, y);
    }
    TwoOfFour(f, entries, j1, j2);
    FrontEnd(sourceDir, outputDir, entries, None);
  }

  /** Filtering four items of which only the first two produce something. */
  lemma {:induction false} TwoOfFour<A, B>(f: A -> Option<B>, s: seq<A>, u: B, v: B)
    requires |s| == 4 && f(s[0]) == Some(u) && f(s[1]) == Some(v)
    requires f(s[2]) == None && f(s[3]) == None
    ensures FilterMap(f, s) == [u, v]
  {
    assert s[..0] == [];
    FilterMapStep(f, s, 0);
    FilterMapStep(f, s, 1);
    FilterMapStep(f, s, 2);
    FilterMapStep(f, s, 3);
    assert s[..4] == s;
  }

  /** An entry name with a single dot never yields a job. */
  lemma {:induction false} OneDotEntry(sourceDir: string, outputDir: string, x: string, y: string)
    requires '.' !in x && '.' !in y && '/' !in x && '/' !in y
    ensures EntryJob(sourceDir, outputDir)(DirEntry(x + "." + y)) == None
  {
    var name := x + "." + y;
    var e := DirEntry(name);
    var p := Join([sourceDir, name]);
    BaseOfJoin(sourceDir, name);
    SplitAround(x, '.', y);
    SplitNoSeparator(x, '.');
    SplitNoSeparator(y, '.');
    assert JobFor(outputDir, p) == None;
    assert Select(sourceDir)(e) == Candidate(sourceDir, e);
    if Candidate(sourceDir, e).Some? {
      assert Translator(outputDir)(Ok(p)) == Translate(outputDir, Ok(p));
    }
  }
}
