# A verified model of a static site builder's article pipeline

The program turns a folder of markdown articles into a folder of HTML pages.
It is given a source folder, an output root and a template folder. It runs as
three stages connected by channels:

- **Discovery** (`findArticlesPaths`) lists the source folder, without
  recursing. It sends `Ok(path)` for every entry whose joined path ends in
  `.md`. A failed listing is reported first, as one `Err` value.
- **Translation**, an anonymous goroutine in `main`, turns each discovered
  path into a render job.
  - It skips error values.
  - It skips any path whose base name does not split on `.` into exactly
    three chunks, `<title>.<slug>.<ext>`.
  - It sends `renderJob{inPath, outPath}` with
    `outPath = path.Join(outputDir, slug, "index.html")`.
- **Rendering** (`runArticleHTMLRenderer`) runs one worker per job. A worker
  reads the article, renders it, creates the page's directory and file, and
  executes the template into it. The first step that fails ends the job with
  `renderRes{inPath, err}`. A job that succeeds ends with
  `renderRes{outPath, nil}`. The pool closes the result stream after every
  worker has finished.

The model follows the program's structure:

- **`Results`:** `Res[T]` and `Ok`/`Err`.
- **`GoStrings`:** `strings.Split` and `strings.HasSuffix`.
- **`GoPath`:** `path.Join`, `path.Base` and `path.Dir`.
- **`Filtering`:** the shape shared by both stream loops, which is "keep
  some items, transformed, in order".
- **`Conduits`:** a channel as a class holding the values sent and a closed
  flag.
- **`Discovery`:** `findArticlesPaths`.
- **`Translation`:** the translation goroutine and `renderJob`.
- **`Renderer`:** the worker, the pool and `renderRes`.
- **`Pipeline`:** `main`'s wiring and whole-pipeline properties.

The three stream loops are methods over a `Channel`. Each is proved to send exactly
what a specification function describes (`Found`, `Jobs`, `PoolResults`) and
to close its channel only after the last value. The properties of those
functions are then proved as lemmas. Each call a worker makes to the file
system or the template is an `Op`. How each call turns out is given by a
`FileSystem` value of oracle functions.

`not-valid.md` has one dot. It splits into two chunks, so it yields no job
(`Pipeline.OneDotEntry`).

## Model

| member | source | states |
|---|---|---|
| Results.Ok | main.go:185-187 | Definition: the value with a nil error; its properties are in `Results.Constructors` |
| Results.Err | main.go:189-191 | Definition: the error with the zero value; its properties are in `Results.Constructors` |
| Results.Classify | main.go:44 | The error-first reading of a received `Res` that `Translation.Translate` applies; it inverts building with `Ok`/`Err` (`Results.TaggedRoundTrip`) |
| Results.Constructors | main.go:185-191 | `Ok(v)` has a nil error and holds `v`; `Err(e)` holds `e` and the zero value; both are canonical and read back as built; `Ok(v)` never equals `Err(e)` |
| Results.TaggedRoundTrip | main.go:180-191 | Building a `Res` with `Ok`/`Err` and reading it back gives the tagged value; reading then building gives back the pair if and only if a failed pair carries the zero value |
| GoStrings.Split | main.go:50 | `strings.Split` on one character: there is one more piece than separators, so `""` gives `[""]`, and no piece contains the separator |
| GoStrings.JoinSplit | main.go:50 | Joining the pieces of a split with the separator gives back the original string |
| GoStrings.SplitJoin | main.go:50 | Splitting a join of separator-free pieces gives back those pieces |
| GoStrings.SplitNoSeparator | main.go:50 | A string without the separator splits into itself alone |
| GoStrings.SplitAround | main.go:50 | Splitting `u + sep + v` gives the pieces of `u` followed by the pieces of `v` |
| GoStrings.SplitCons | main.go:50 | How the split of a string is built from its first character and the split of the rest |
| GoStrings.SplitAroundStep | main.go:50 | The inductive step of `SplitAround`: one more leading character |
| GoStrings.ThreePieces | main.go:50-51 | `a.b.c` with dot-free parts splits into exactly `[a, b, c]` |
| GoStrings.PiecesOfThree | main.go:50-51 | A string that splits into three pieces is those pieces joined by two separators |
| GoStrings.LastPiece | main.go:50 | If `s` ends in `sep + t` and `t` is separator-free, the last piece is `t` |
| GoStrings.HasSuffix | main.go:172 | Definition of `strings.HasSuffix`; its use on discovered paths is characterised in `Discovery.MarkdownEntry` |
| GoStrings.JoinWithAppend | main.go:50 | Joining one more part appends a separator and that part |
| GoPath.Append | main.go:55 | Definition: one more element added by `path.Join`, an empty element adding nothing; its properties are in `GoPath.JoinWithSnoc` |
| GoPath.Join | main.go:55 | Definition of `path.Join` without `Clean`; its properties are in `GoPath.JoinIsJoinOfNonEmpty`, `GoPath.JoinIgnoresEmpty` and `GoPath.JoinChild` |
| GoPath.NonEmpty | main.go:55 | The elements `path.Join` keeps: never more than given, none of them empty |
| GoPath.JoinIsJoinOfNonEmpty | main.go:55 | `Join` is the non-empty elements, in order, separated by single slashes; this is `path.Join` when the elements are clean (see `GoPath.Join` under Left out) |
| GoPath.JoinIgnoresEmpty | main.go:55 | Removing an empty element anywhere leaves the joined path unchanged |
| GoPath.NonEmptyConcat | main.go:55 | The kept elements of a concatenation are those of each part, in order |
| GoPath.NonEmptyAppend | main.go:55 | Appending an element keeps it exactly when it is non-empty |
| GoPath.JoinWithSnoc | main.go:55 | Joining non-empty parts and one more element adds a slash and the element only when that element is non-empty |
| GoPath.JoinOne | main.go:171 | A single element is its own join |
| GoPath.JoinChild | main.go:171 | For a clean `dir`, `path.Join(dir, name)` is `name` when `dir` is empty and `dir/name` otherwise |
| GoPath.JoinThree | main.go:55 | The join of three elements drops empty leading elements along with their slashes |
| GoPath.TrimTrailingSlashes | main.go:49 | The result is a prefix of `p`, does not end in `/`, and only slashes were removed |
| GoPath.AfterLastSlash | main.go:49 | The last element of a path never contains `/` |
| GoPath.Base | main.go:49 | `path.Base` is never empty; it is `/` or has no slash |
| GoPath.Dir | main.go:123 | `path.Dir` is never empty |
| GoPath.SplitPath | main.go:49 | The directory part followed by the last element gives back the path |
| GoPath.BaseOfPlainPath | main.go:49 | For a path that does not end in a slash, `path.Base` is its last element |
| GoPath.AfterLastSlashOfChild | main.go:171 | The last element of `dir/name` is `name`, and the part before it is `dir/` |
| GoPath.AfterLastSlashOfName | main.go:171 | A slash-free name is its own last element and has no directory part |
| GoPath.BaseOfJoin | main.go:49 | The base name of a discovered path `path.Join(dir, name)` is the entry's name |
| GoPath.DirOfChild | main.go:123 | The directory `MkdirAll` creates for `prefix/file` is `prefix`, and for a bare name it is `.` |
| Filtering.FilterMap | main.go:170-175 | A filtering loop never emits more values than it receives |
| Filtering.FilterMapStep | main.go:170-175 | One more loop iteration appends what that item contributes |
| Filtering.FilterMapAppend | main.go:170-175 | Filtering a concatenation filters each part in turn |
| Filtering.FilterMapSkip | main.go:43-47 | An item that contributes nothing can be removed without changing the output |
| Filtering.FilterMapSources | main.go:170-175 | Output `k` is the image of input `Sources[k]`; those positions strictly increase, giving input order with no duplicates; every input that contributes is among them |
| Filtering.FilterMapThen | main.go:42-63 | Two filtering loops in a row are one loop with the stages chained |
| Conduits.Channel.constructor | main.go:35-37 | A new channel is open and empty |
| Conduits.Channel.Send | main.go:57-60 | Sending appends one value, and the channel must be open |
| Conduits.Channel.Close | main.go:62 | Closing marks the channel closed, keeps what was sent and must happen only once |
| Discovery.Candidate | main.go:171-174 | Definition: the `Ok` path an entry contributes when its joined path ends in `.md`; its properties are in `Discovery.MarkdownEntry` |
| Discovery.Found | main.go:170-175 | Definition: the paths the loop sends; its properties are in `Discovery.SelectedAreMarkdown`, `Discovery.DiscoveryInEntryOrder` and `Discovery.DiscoveryComplete` |
| Discovery.ListingError | main.go:166-168 | Definition: the one error value a failed listing sends; its properties are in `Discovery.DiscoveryErrorFirst` |
| Discovery.Discover | main.go:164-175 | Definition: everything discovery sends; its properties are in `Discovery.DiscoveredAreMarkdown`, `Discovery.DiscoveryErrorFirst` and `Discovery.DiscoveryContinuesAfterError` |
| Discovery.FoundIsFilterMap | main.go:170-175 | The discovery loop is the filter "joined path ends in `.md`" over the listing |
| Discovery.FindArticlesPaths | main.go:164-178 | Sends the listing error first if there is one, then `Ok(join(dir, name))` for each `.md` entry in listing order, then closes the stream |
| Discovery.SelectedAreMarkdown | main.go:170-175 | Every path the loop sends is an `Ok` value ending in `.md` |
| Discovery.DiscoveredAreMarkdown | main.go:164-175 | Every discovered `Ok` value ends in `.md`, and every value is one that `Ok`/`Err` build |
| Discovery.DiscoveryErrorFirst | main.go:165-168 | Position 0 holds an error exactly when the listing failed, and no other position does |
| Discovery.DiscoveryInEntryOrder | main.go:170-175 | Path `k` is the entry at `Sources[k]` joined under `dir`; those positions strictly increase, giving listing order |
| Discovery.DiscoveryComplete | main.go:170-175 | No entry whose joined path ends in `.md` is skipped |
| Discovery.DiscoveryContinuesAfterError | main.go:165-175 | A failed listing still enumerates the returned entries, after the one error value |
| Discovery.MarkdownEntry | main.go:171-172 | For a real entry name, the `.md` test on the joined path is the test on the name; the directory never supplies the suffix |
| Translation.JobFor | main.go:49-60 | Definition: the job for a discovered path; its properties are in `Translation.JobGate`, `Translation.JobFields` and `Translation.JobOfName` |
| Translation.Translate | main.go:44-60 | Definition: what one received value contributes; its properties are in `Translation.ErrorsYieldNoJobs` and `Translation.JobsInOrder` |
| Translation.Jobs | main.go:43-61 | Definition: the jobs the loop sends; its properties are in `Translation.JobsInOrder` and `Translation.ErrorsYieldNoJobs` |
| Translation.JobsIsFilterMap | main.go:42-61 | The translation loop is the filter `Translate` over what it receives |
| Translation.JobsStep | main.go:43-60 | Receiving one more value appends exactly that value's job, if it has one |
| Translation.TranslateArticles | main.go:42-63 | Sends `Jobs` of everything received, in order, and closes the job stream only after the input is exhausted |
| Translation.JobGate | main.go:49-54 | A path yields a job if and only if its base name has exactly two dots, whatever the extension |
| Translation.JobFields | main.go:55-60 | A job keeps the discovered path unchanged as `inPath`; the base name is `title.slug.ext` with dot-free parts; `outPath` is `join(outputDir, slug, "index.html")` |
| Translation.JobOfName | main.go:49-60 | Conversely, every base name `title.slug.ext` with dot-free parts yields the job for `slug` |
| Translation.MarkdownNameChunks | main.go:50-51 | A `.md` entry name that splits into three has `md` as its third chunk and a slug without `.` or `/` |
| Translation.DiscoveredJob | main.go:49-55 | For a discovered `.md` entry that passes the gate, the third chunk is `md`, the slug has no `.` or `/`, and the page is `outputDir/<slug>/index.html`, or `outputDir/index.html` when the slug is empty |
| Translation.PagePath | main.go:55 | Where the page for a slug goes under a non-empty output root, with an empty slug dropped |
| Translation.JobsInOrder | main.go:42-61 | Job `k` comes from the received value at `Sources[k]`, which is not an error and passes the gate; no value yields two jobs; jobs follow input order; every value that passes yields a job |
| Translation.ErrorsYieldNoJobs | main.go:44-47 | An error value, wherever it is received, contributes no job |
| Renderer.Plan | main.go:108-145 | A job has four steps: read, mkdir, create, execute |
| Renderer.FirstFailure | main.go:108-152 | The position of the first failing step: every earlier step succeeded, and the step at that position failed |
| Renderer.OpError | main.go:108-156 | Definition: the error a step reports; its use is characterised in `Renderer.FirstErrorWins` |
| Renderer.Attempted | main.go:108-156 | Definition: the calls a job makes; its properties are in `Renderer.FirstErrorWins` and `Renderer.CallTargets` |
| Renderer.Outcome | main.go:108-156 | Definition: the result a job sends; its properties are in `Renderer.FirstErrorWins` and `Renderer.SuccessOnlyIfAllSucceed` |
| Renderer.RenderArticle | main.go:105-157 | The worker's result is `Outcome`, and the calls it makes are `Attempted`, the plan up to and including the first failure |
| Renderer.FirstErrorWins | main.go:108-156 | The calls made are a prefix of the plan, and every call but the last succeeded. A failure reports `inPath` with that call's error, and no later step is attempted. Success means all four calls were made and reports `outPath` |
| Renderer.SuccessOnlyIfAllSucceed | main.go:141-156 | A job reports a nil error if and only if every step succeeds; its path is then `outPath`, and `inPath` otherwise |
| Renderer.CallTargets | main.go:108-141 | The worker reads `inPath`, creates `Dir(outPath)`, creates `outPath` and executes the template into `outPath` |
| Renderer.PoolResults | main.go:101-158 | The pool yields exactly one result per job |
| Renderer.ResultOfEachJob | main.go:101-158 | Result `i` is the outcome of job `i` alone, so one article's failure affects no other article's result |
| Renderer.RunArticleHTMLRenderer | main.go:99-161 | Sends one result per received job, each that job's outcome, and closes the result stream only after all of them |
| Pipeline.Run | main.go:35-71 | The results `main` receives are the pool's results for the jobs translated from what discovery sent |
| Pipeline.EntryJob | main.go:42-63 | Definition: the job discovery and translation make of one entry; its properties are in `Pipeline.FrontEnd` and `Pipeline.EntryJobOf` |
| Pipeline.IsArticle | main.go:170-173 | Definition: an entry whose path ends in `.md` and whose name has two dots; `Pipeline.EntryJobOf` proves these are exactly the entries that yield jobs |
| Pipeline.FrontEnd | main.go:40-63 | Discovery followed by translation is one filter over the directory entries, and the listing error contributes no job |
| Pipeline.EntryJobOf | main.go:42-63 | An entry yields a job if and only if its path ends in `.md` and its name has exactly two dots; that job reads the entry's path |
| Pipeline.EveryArticleOneResult | main.go:35-71 | Each article entry gets exactly one result, in listing order, and that result is its job's outcome; no non-article gets one |
| Pipeline.ArticleEntryJob | main.go:49-60 | `title.slug.md` in `sourceDir` yields the job from `join(sourceDir, name)` to `join(outputDir, slug, "index.html")` |
| Pipeline.TextEntry | main.go:170-173 | A `.txt` entry is never discovered, so it yields no job |
| Pipeline.OneDotEntry | main.go:49-54 | A name with only one dot, such as `not-valid.md`, yields no job |
| Pipeline.MixedDirectory | main.go:42-63 | For `a.s1.md`, `b.s2.md`, `x.md` and `y.txt`, exactly the two articles become jobs, in order, each with its slug's page |
| Pipeline.TwoOfFour | main.go:42-63 | Filtering four items where only the first two produce output gives those two outputs |

## Left out

- Goroutines, unbuffered channels and `sync.WaitGroup` (main.go:35-40, 99-106, 160-161).
  - The three stages run one after another.
  - Each stage's output channel is complete and closed before the next stage reads it.
  - Interleaving between stages is not modelled.
- Renderer.RunArticleHTMLRenderer: results are sent in job order. In the program, workers run concurrently and results arrive in completion order. The model therefore does not capture cross-job ordering. It does capture that there is exactly one result per job and that the close comes last.
- Renderer.RenderArticle:
  - Markdown parsing and rendering (main.go:117-121) is an opaque total function `markdown`.
  - Template loading, `template.Must` and its panic (main.go:91-97) are not modelled.
  - Template execution (main.go:141-145) is an oracle outcome.
  - The file `os.Create` opens is never closed by the program, and the model has no close step either.
- `os.ReadDir`, `os.ReadFile`, `os.MkdirAll` and `os.Create` (main.go:108, 123, 132, 165) are inputs, not calls:
  - a listing, as entries and an error;
  - a `FileSystem` value of oracle outcomes.

  Entry order is the order of the given sequence.
- Flag parsing, usage and `os.Exit(1)` (main.go:22-31) are not modelled.
- All logging (main.go:33, 45, 52, 65-73) is not modelled. `Pipeline.Run` returns the results `main` would log.
- `renderArticleHTML` (main.go:76-78) is an unimplemented stub that is never called, so it is not modelled.
- GoPath.Join: does not model `path.Clean`, which also removes `.` and `..` elements, doubled slashes and trailing slashes. Only empty elements are dropped. The model is therefore exact only when `sourceDir` and `outputDir` are already clean: not `.`, no `./` prefix, no trailing or doubled slash. For `sourceDir == "src/"` the model gives `src//a.b.md` where Go gives `src/a.b.md`. For `"."` it gives `./a.b.md` where Go gives `a.b.md`. So `inPath`, `outPath` and the `MkdirAll` argument agree with the program only for clean roots.
- GoPath.Dir: does not `Clean` the directory part: `./out/s/index.html` gives `./out/s` where Go gives `out/s`. Its own contract states only that the result is non-empty; `GoPath.DirOfChild` gives the value for the shapes built here. `GoPath.Base` does no `Clean` in Go either, and is exact.
- GoStrings.Split: models only a one-character separator, the only form the program uses.
- Results.Err: Go supplies the zero value of `T` implicitly. Here it is a parameter, and discovery passes `""`.
- Gaps in what is proved:
  - the pages' contents;
  - the effect of two articles sharing a slug, where the later write wins;
  - running the program twice.
