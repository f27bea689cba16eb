/** The three functions of Go's `path` package the site builder calls:
    `path.Join`, `path.Base` and `path.Dir`, on slash-separated paths.

    Go's versions finish by running the result through `path.Clean`, which
    also removes `.` and `..` elements and doubled slashes. This model keeps
    only the part of `Clean` that matters for the paths built here: empty
    elements vanish from a join and trailing slashes are trimmed. */
module GoPath {
  import opened GoStrings

  /** The non-empty elements of `elems`, in order. */
  function NonEmpty(elems: seq<string>): (r: seq<string>)
    ensures |r| <= |elems|
    ensures forall i :: 0 <= i < |r| ==> r[i] != ""
  {
    if elems == [] then []
    else (if elems[0] == "" then [] else [elems[0]]) + NonEmpty(elems[1..])
  }

  /** Two pieces of a path joined by a slash; an empty piece adds nothing. */
  function Append(a: string, b: string): string
  {
    if b == "" then a else if a == "" then b else a + "/" + b
  }

  /** `path.Join(elems...)`: the elements joined by slashes, empty elements
      ignored; the empty string when every element is empty. */
  function Join(elems: seq<string>): string
  {
    if elems == [] then "" else Append(Join(elems[..|elems| - 1]), elems[|elems| - 1])
  }

  /** `p` without its trailing slashes. */
  function TrimTrailingSlashes(p: string): (r: string)
    ensures r <= p
    ensures r == [] || r[|r| - 1] != '/'
    ensures forall i :: |r| <= i < |p| ==> p[i] == '/'
  {
    if p != [] && p[|p| - 1] == '/' then TrimTrailingSlashes(p[..|p| - 1]) else p
  }

  /** The text after the last `/` of `p`; all of `p` when it has no `/`. */
  function AfterLastSlash(p: string): (r: string)
    ensures '/' !in r
  {
    if p == [] then []
    else if p[|p| - 1] == '/' then []
    else AfterLastSlash(p[..|p| - 1]) + [p[|p| - 1]]
  }

  /** The text up to and including the last `/` of `p`; empty when it has none. */
  function UpToLastSlash(p: string): string
  {
    if p == [] then []
    else if p[|p| - 1] == '/' then p
    else UpToLastSlash(p[..|p| - 1])
  }

  /** `path.Base(p)`: the last element of `p` after trailing slashes are
      removed; `.` for the empty path and `/` for a path of slashes only. */
  function Base(p: string): (r: string)
    ensures r != ""
    ensures r == "/" || '/' !in r
  {
    if p == [] then "."
    else
      var q := TrimTrailingSlashes(p);
      if q == [] then "/" else AfterLastSlash(q)
  }

  /** `path.Dir(p)`: everything before the last element, without trailing
      slashes; `.` when `p` has no slash and `/` when only slashes remain. */
  function Dir(p: string): (r: string)
    ensures r != ""
  {
    var d := UpToLastSlash(p);
    if d == [] then "."
    else
      var t := TrimTrailingSlashes(d);
      if t == [] then "/" else t
  }

  /** `path.Split`: the directory part and the last element together give
      back the whole path. */
  lemma {:induction false} SplitPath(p: string)
    ensures UpToLastSlash(p) + AfterLastSlash(p) == p
  {
    if p != [] && p[|p| - 1] != '/' {
      var init, c := p[..|p| - 1], p[|p| - 1];
      SplitPath(init);
      assert UpToLastSlash(p) == UpToLastSlash(init);
      assert AfterLastSlash(p) == AfterLastSlash(init) + [c];
      Associative(UpToLastSlash(init), AfterLastSlash(init), [c]);
      assert p == init + [c];
    }
  }

  /** For a path that does not end in a slash, `Base` is the last element. */
  lemma {:induction false} BaseOfPlainPath(p: string)
    requires p != [] && p[|p| - 1] != '/'
    ensures Base(p) == AfterLastSlash(p)
  {
    assert TrimTrailingSlashes(p) == p;
  }

  /** Joining a directory and a file name. */
  lemma {:induction false} JoinChild(dir: string, name: string)
    requires name != ""
    ensures Join([dir, name]) == if dir == "" then name else dir + "/" + name
  {
    JoinOne(dir);
    assert [dir, name][..1] == [dir];
    assert Join([dir, name]) == Append(Join([dir]), name);
  }

  /** A single element is its own join. */
  lemma {:induction false} JoinOne(a: string)
    ensures Join([a]) == a
  {
    assert [a][..0] == [];
    assert Join([a]) == Append(Join([]), a);
  }

  /** Joining three elements, the last one non-empty: empty elements before
      it are dropped together with their separator. */
  lemma {:induction false} JoinThree(a: string, b: string, c: string)
    requires c != ""
    ensures Join([a, b, c]) ==
      if a == "" && b == "" then c
      else if a == "" then b + "/" + c
      else if b == "" then a + "/" + c
      else a + "/" + b + "/" + c
  {
    JoinOne(a);
    assert [a, b, c][..2] == [a, b];
    assert [a, b][..1] == [a];
    assert Join([a, b]) == Append(a, b);
    assert Join([a, b, c]) == Append(Append(a, b), c);
  }

  /** `Join` is the documented reading of `path.Join`: the non-empty
      elements, in order, separated by single slashes. */
  lemma {:induction false} JoinIsJoinOfNonEmpty(elems: seq<string>)
    ensures Join(elems) == JoinWith(NonEmpty(elems), '/')
  {
    if elems != [] {
      var init, last := elems[..|elems| - 1], elems[|elems| - 1];
      assert elems == init + [last];
      JoinIsJoinOfNonEmpty(init);
      NonEmptyAppend(init, last);
      JoinWithSnoc(NonEmpty(init), last);
    }
  }

  /** Empty elements never change a join: dropping one gives the same path. */
  lemma {:induction false} JoinIgnoresEmpty(a: seq<string>, b: seq<string>)
    ensures Join(a + [""] + b) == Join(a + b)
  {
    JoinIsJoinOfNonEmpty(a + [""] + b);
    JoinIsJoinOfNonEmpty(a + b);
    NonEmptyConcat(a + [""], b);
    NonEmptyConcat(a, [""]);
    NonEmptyConcat(a, b);
    assert NonEmpty([""]) == [] by {
      assert [""][1..] == [];
    }
    assert NonEmpty(a + [""]) == NonEmpty(a);
    assert NonEmpty(a + [""] + b) == NonEmpty(a + b);
  }

  /** The non-empty elements of a concatenation. */
  lemma {:induction false} NonEmptyConcat(a: seq<string>, b: seq<string>)
    ensures NonEmpty(a + b) == NonEmpty(a) + NonEmpty(b)
  {
    if a != [] {
      assert (a + b)[0] == a[0];
      assert (a + b)[1..] == a[1..] + b;
      NonEmptyConcat(a[1..], b);
      Associative(if a[0] == "" then [] else [a[0]], NonEmpty(a[1..]), NonEmpty(b));
    } else {
      assert a + b == b;
    }
  }

  /** The non-empty elements after one more element. */
  lemma {:induction false} NonEmptyAppend(init: seq<string>, last: string)
    ensures NonEmpty(init + [last]) == NonEmpty(init) + (if last == "" then [] else [last])
  {
    NonEmptyConcat(init, [last]);
    assert [last][1..] == [];
  }

  /** Joining non-empty parts with one more part. */
  lemma {:induction false} JoinWithSnoc(parts: seq<string>, x: string)
    requires forall i :: 0 <= i < |parts| ==> parts[i] != ""
    ensures JoinWith(parts + (if x == "" then [] else [x]), '/') == Append(JoinWith(parts, '/'), x)
  {
    if x == "" {
      assert parts + [] == parts;
    } else if parts == [] {
      assert parts + [x] == [x];
    } else {
      JoinWithAppend(parts, x, '/');
      assert JoinWith(parts, '/') != "" by {
        assert |JoinWith(parts, '/')| >= |parts[0]|;
      }
    }
  }

  /** The last element of a slash-free name appended under a directory is that name. */
  lemma {:induction false} AfterLastSlashOfChild(dir: string, name: string)
    requires '/' !in name
    ensures AfterLastSlash(dir + "/" + name) == name
    ensures UpToLastSlash(dir + "/" + name) == dir + "/"
  {
    var p := dir + "/" + name;
    if name != [] {
      var init := name[..|name| - 1];
      assert p[..|p| - 1] == dir + "/" + init;
      assert p[|p| - 1] == name[|name| - 1];
      AfterLastSlashOfChild(dir, init);
      assert name == init + [name[|name| - 1]];
    } else {
      assert p == dir + "/";
    }
  }

  /** A slash-free name is its own last element. */
  lemma {:induction false} AfterLastSlashOfName(name: string)
    requires '/' !in name
    ensures AfterLastSlash(name) == name
    ensures UpToLastSlash(name) == ""
  {
    if name != [] {
      var init := name[..|name| - 1];
      AfterLastSlashOfName(init);
      assert name == init + [name[|name| - 1]];
    }
  }

  /** The base name of a directory entry joined under its directory is the
      entry's name. */
  lemma {:induction false} BaseOfJoin(dir: string, name: string)
    requires name != "" && '/' !in name
    ensures Base(Join([dir, name])) == name
  {
    JoinChild(dir, name);
    var p := Join([dir, name]);
    assert p[|p| - 1] == name[|name| - 1];
    assert TrimTrailingSlashes(p) == p;
    if dir == "" {
      AfterLastSlashOfName(name);
    } else {
      AfterLastSlashOfChild(dir, name);
    }
  }

  /** The directory of `prefix/file` is `prefix` when `prefix` does not end
      in a slash; the directory of a bare file name is `.`. */
  lemma {:induction false} DirOfChild(prefix: string, file: string)
    requires '/' !in file
    ensures prefix != "" && prefix[|prefix| - 1] != '/' ==> Dir(prefix + "/" + file) == prefix
    ensures Dir(file) == "."
  {
    AfterLastSlashOfName(file);
    if prefix != "" && prefix[|prefix| - 1] != '/' {
      AfterLastSlashOfChild(prefix, file);
      var d := prefix + "/";
      assert d[..|d| - 1] == prefix;
    }
  }
}
