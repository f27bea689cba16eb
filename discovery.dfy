/** `findArticlesPaths`: the discovery stage. It lists one directory (not
    recursively) and sends the path of every entry that ends in `.md`,
    reporting a failed listing as one error value first. */
module Discovery {
  import opened Results
  import opened GoStrings
  import opened GoPath
  import opened Filtering
  import opened Conduits

  /** An entry of a directory listing (`os.DirEntry`); only its name is used. */
  datatype DirEntry = DirEntry(name: string)

  /** A name as `os.ReadDir` reports it: non-empty, without a slash. */
  predicate EntryName(name: string)
  {
    name != "" && '/' !in name
  }

  /** What one entry contributes: its path under `dir`, if that path ends in `.md`. */
  function Candidate(dir: string, e: DirEntry): Option<Res<string>>
  {
    var p := Join([dir, e.name]);
    if HasSuffix(p, ".md") then Some(Ok(p)) else None
  }

  /** `Candidate` for the entries of `dir`. */
  function Select(dir: string): DirEntry -> Option<Res<string>>
  {
    (e: DirEntry) => Candidate(dir, e)
  }

  /** The paths the loop over `entries` sends, in listing order. This is
      `FilterMap(Select(dir), entries)` written out with a direct call of
      `Candidate`: the loop's invariant is stated on it because applying the
      `Select` closure inside the loop costs the verifier far more.
      `FoundIsFilterMap` proves the two equal, so the general filter lemmas
      apply to it. */
  function Found(dir: string, entries: seq<DirEntry>): seq<Res<string>>
  {
    if entries == [] then []
    else Found(dir, entries[..|entries| - 1]) + Emit(Candidate(dir, entries[|entries| - 1]))
  }

  /** The loop is the filter `Select(dir)` over the listing. */
  lemma {:induction false} FoundIsFilterMap(dir: string, entries: seq<DirEntry>)
    ensures Found(dir, entries) == FilterMap(Select(dir), entries)
  {
    if entries != [] {
      FoundIsFilterMap(dir, entries[..|entries| - 1]);
      assert Select(dir)(entries[|entries| - 1]) == Candidate(dir, entries[|entries| - 1]);
    }
  }

  /** The values `findArticlesPaths(dir, res)` sends when `os.ReadDir(dir)`
      returns `entries` and `listErr`: the error first, if any, then the
      selected entries in listing order. */
  function Discover(dir: string, entries: seq<DirEntry>, listErr: Option<Error>): seq<Res<string>>
  {
    ListingError(listErr) + Found(dir, entries)
  }

  /** What a failed listing contributes: one error value, sent first. */
  function ListingError(listErr: Option<Error>): seq<Res<string>>
  {
    if listErr.Some? then [Err("", listErr.value)] else []
  }

  /** The discovery goroutine: sends on `res` what `Discover` describes (the
      listing error, then the paths found) and closes `res` only once every
      entry has been visited. */
  method FindArticlesPaths(dir: string, entries: seq<DirEntry>, listErr: Option<Error>,
                           res: Channel<Res<string>>)
    requires !res.closed
    modifies res
    ensures res.closed
    ensures res.sent == old(res.sent) + ListingError(listErr) + Found(dir, entries)
  {
    if listErr.Some? {
      res.Send(Err("", listErr.value));
    }
    ghost var head := res.sent;
    for i := 0 to |entries|
      invariant !res.closed
      invariant res.sent == head + Found(dir, entries[..i])
    {
      assert entries[..i + 1][..i] == entries[..i];
      var p := Join([dir, entries[i].name]);
      if HasSuffix(p, ".md") {
        res.Send(Ok(p));
      }
    }
    assert entries[..|entries|] == entries;
    res.Close();
  }

  /** Every selected entry yields an `Ok` path that ends in `.md`. */
  lemma {:induction false} SelectedAreMarkdown(dir: string, entries: seq<DirEntry>)
    ensures forall k :: 0 <= k < |Found(dir, entries)| ==>
      Found(dir, entries)[k].err.None? && HasSuffix(Found(dir, entries)[k].ok, ".md")
  {
    if entries != [] {
      SelectedAreMarkdown(dir, entries[..|entries| - 1]);
    }
  }

  /** Every path discovered ends in `.md`, and every discovered value is one
      that `Ok` or `Err` builds. */
  lemma {:induction false} DiscoveredAreMarkdown(dir: string, entries: seq<DirEntry>, listErr: Option<Error>)
    ensures var r := Discover(dir, entries, listErr);
      forall k :: 0 <= k < |r| ==> Canonical("", r[k]) && (r[k].err.None? ==> HasSuffix(r[k].ok, ".md"))
  {
    var r := Discover(dir, entries, listErr);
    var fm := Found(dir, entries);
    var off := |r| - |fm|;
    SelectedAreMarkdown(dir, entries);
    forall k | off <= k < |r|
      ensures r[k].err.None? && HasSuffix(r[k].ok, ".md")
    {
      assert r[k] == fm[k - off];
    }
  }

  /** At most one error is sent, and it comes before every path: position 0
      holds an error exactly when the listing failed, and no other position does. */
  lemma {:induction false} DiscoveryErrorFirst(dir: string, entries: seq<DirEntry>, listErr: Option<Error>)
    ensures var r := Discover(dir, entries, listErr);
      (listErr.Some? ==> r[0] == Err("", listErr.value)) &&
      forall k :: 0 <= k < |r| ==> (r[k].err.Some? <==> k == 0 && listErr.Some?)
  {
    var r := Discover(dir, entries, listErr);
    var fm := Found(dir, entries);
    var off := |r| - |fm|;
    SelectedAreMarkdown(dir, entries);
    forall k | off <= k < |r|
      ensures r[k].err.None?
    {
      assert r[k] == fm[k - off];
    }
  }

  /** The paths come in listing order: path `k` is entry `Sources(..)[k]`
      joined under `dir`, and those positions strictly increase (the paths
      follow the error value, if any, in `Discover`). */
  lemma {:induction false} DiscoveryInEntryOrder(dir: string, entries: seq<DirEntry>)
    ensures |Found(dir, entries)| == |Sources(Select(dir), entries)|
    ensures forall k :: 0 <= k < |Sources(Select(dir), entries)| ==>
      Sources(Select(dir), entries)[k] < |entries| &&
      Found(dir, entries)[k] == Ok(Join([dir, entries[Sources(Select(dir), entries)[k]].name]))
    ensures forall k, l :: 0 <= k < l < |Sources(Select(dir), entries)| ==>
      Sources(Select(dir), entries)[k] < Sources(Select(dir), entries)[l]
  {
    var f := Select(dir);
    FoundIsFilterMap(dir, entries);
    FilterMapSources(f, entries);
    var src := Sources(f, entries);
    forall k | 0 <= k < |src|
      ensures Found(dir, entries)[k] == Ok(Join([dir, entries[src[k]].name]))
    {
      assert f(entries[src[k]]) == Candidate(dir, entries[src[k]]);
    }
  }

  /** No `.md` entry is skipped: every entry whose joined path ends in `.md`
      is one of the positions the paths come from. */
  lemma {:induction false} DiscoveryComplete(dir: string, entries: seq<DirEntry>)
    ensures forall i :: 0 <= i < |entries| && HasSuffix(Join([dir, entries[i].name]), ".md") ==>
      i in Sources(Select(dir), entries)
  {
    var f := Select(dir);
    FilterMapSources(f, entries);
    forall i | 0 <= i < |entries| && HasSuffix(Join([dir, entries[i].name]), ".md")
      ensures i in Sources(f, entries)
    {
      assert f(entries[i]) == Candidate(dir, entries[i]);
    }
  }

  /** A failed listing does not stop the enumeration: the entries returned
      alongside the error are still visited, after the error value. */
  lemma {:induction false} DiscoveryContinuesAfterError(dir: string, entries: seq<DirEntry>, e: Error)
    ensures Discover(dir, entries, Some(e)) == [Err("", e)] + Discover(dir, entries, None)
    ensures |Discover(dir, entries, Some(e))| == 1 + |Discover(dir, entries, None)|
  {
  }

  /** For a real entry name the suffix test on the joined path is the suffix
      test on the name itself: the directory never supplies the `.md`. */
  lemma {:induction false} MarkdownEntry(dir: string, name: string)
    requires EntryName(name)
    ensures HasSuffix(Join([dir, name]), ".md") <==> HasSuffix(name, ".md")
  {
    JoinChild(dir, name);
    var p := Join([dir, name]);
    if dir != "" && |name| < 3 {
      var t := p[|p| - 3..];
      assert t[2 - |name|] == '/';
      assert t != ".md";
    } else if dir != "" {
      assert p[|p| - 3..] == name[|name| - 3..];
    }
  }
}
