/** The two functions of Go's `strings` package the site builder relies on:
    `strings.Split` with a one-character separator and `strings.HasSuffix`. */
module GoStrings {

  /** Concatenation is associative (a helper for the sequence proofs). */
  lemma {:induction false} Associative<T>(a: seq<T>, b: seq<T>, c: seq<T>)
    ensures (a + b) + c == a + (b + c)
  {
  }

  /** Number of occurrences of `c` in `s`. */
  function Count(s: string, c: char): nat
  {
    if s == [] then 0 else (if s[0] == c then 1 else 0) + Count(s[1..], c)
  }

  /** `strings.Split(s, string(sep))`: the pieces between the separators, in
      order. There is always one more piece than there are separators, even for
      the empty string (which splits into `[""]`), and no piece holds `sep`. */
  function Split(s: string, sep: char): (parts: seq<string>)
    ensures |parts| == Count(s, sep) + 1
    ensures forall i :: 0 <= i < |parts| ==> sep !in parts[i]
  {
    if s == [] then [""]
    else
      var rest := Split(s[1..], sep);
      if s[0] == sep then [""] + rest
      else [[s[0]] + rest[0]] + rest[1..]
  }

  /** `strings.Join(parts, string(sep))`: the inverse of `Split`. */
  function JoinWith(parts: seq<string>, sep: char): string
  {
    if |parts| == 0 then ""
    else if |parts| == 1 then parts[0]
    else parts[0] + [sep] + JoinWith(parts[1..], sep)
  }

  /** Joining one more part appends a separator and that part. */
  lemma {:induction false} JoinWithAppend(parts: seq<string>, x: string, sep: char)
    requires |parts| > 0
    ensures JoinWith(parts + [x], sep) == JoinWith(parts, sep) + [sep] + x
  {
    var w := parts + [x];
    assert w[0] == parts[0];
    assert w[1..] == parts[1..] + [x];
    if |parts| > 1 {
      JoinWithAppend(parts[1..], x, sep);
      Associative(parts[0] + [sep], JoinWith(parts[1..], sep), [sep] + x);
      Associative(parts[0] + [sep] + JoinWith(parts[1..], sep), [sep], x);
      Associative(JoinWith(parts[1..], sep), [sep], x);
    }
  }

  /** `strings.HasSuffix(s, suffix)`. */
  predicate HasSuffix(s: string, suffix: string)
  {
    |suffix| <= |s| && s[|s| - |suffix|..] == suffix
  }

  /** Splitting then joining gives back the original string. */
  lemma {:induction false} JoinSplit(s: string, sep: char)
    ensures JoinWith(Split(s, sep), sep) == s
  {
    if s != [] {
      var rest := Split(s[1..], sep);
      JoinSplit(s[1..], sep);
      if s[0] == sep {
        assert JoinWith([""] + rest, sep) == "" + [sep] + JoinWith(rest, sep);
        assert s == [sep] + s[1..];
      } else if |rest| == 1 {
        assert s == [s[0]] + s[1..];
      } else {
        var parts := [[s[0]] + rest[0]] + rest[1..];
        assert parts[1..] == rest[1..];
        assert JoinWith(rest, sep) == rest[0] + [sep] + JoinWith(rest[1..], sep);
        assert s == [s[0]] + s[1..];
      }
    }
  }

  /** A string without the separator is a single piece. */
  lemma {:induction false} SplitNoSeparator(s: string, sep: char)
    requires sep !in s
    ensures Split(s, sep) == [s]
  {
    if s != [] {
      SplitNoSeparator(s[1..], sep);
      assert s == [s[0]] + s[1..];
    }
  }

  /** Splitting a string that starts with the character `c`. */
  lemma {:induction false} SplitCons(c: char, t: string, sep: char)
    ensures Split([c] + t, sep) ==
      if c == sep then [""] + Split(t, sep) else [[c] + Split(t, sep)[0]] + Split(t, sep)[1..]
  {
    assert ([c] + t)[0] == c && ([c] + t)[1..] == t;
  }

  /** Splitting around one separator splits the two sides independently. */
  lemma {:induction false} SplitAround(u: string, sep: char, v: string)
    ensures Split(u + [sep] + v, sep) == Split(u, sep) + Split(v, sep)
  {
    if u == [] {
      assert u + [sep] + v == [sep] + v;
      SplitCons(sep, v, sep);
    } else {
      var c, t := u[0], u[1..];
      assert u == [c] + t;
      assert u + [sep] + v == [c] + (t + [sep] + v);
      SplitAround(t, sep, v);
      SplitAroundStep(c, t, sep, v);
    }
  }

  /** The inductive step of `SplitAround`: one more leading character. */
  lemma {:induction false} SplitAroundStep(c: char, t: string, sep: char, v: string)
    requires Split(t + [sep] + v, sep) == Split(t, sep) + Split(v, sep)
    ensures Split([c] + (t + [sep] + v), sep) == Split([c] + t, sep) + Split(v, sep)
  {
    var tail, right := Split(t, sep), Split(v, sep);
    if c == sep {
      assert Split([c] + (t + [sep] + v), sep) == [""] + (tail + right) by {
        SplitCons(c, t + [sep] + v, sep);
      }
      assert Split([c] + t, sep) == [""] + tail by {
        SplitCons(c, t, sep);
      }
      Associative([""], tail, right);
    } else {
      var h := [c] + tail[0];
      assert Split([c] + (t + [sep] + v), sep) == [h] + (tail[1..] + right) by {
        SplitCons(c, t + [sep] + v, sep);
        assert (tail + right)[0] == tail[0];
        assert (tail + right)[1..] == tail[1..] + right;
      }
      assert Split([c] + t, sep) == [h] + tail[1..] by {
        SplitCons(c, t, sep);
      }
      Associative([h], tail[1..], right);
    }
  }

  /** Joining separator-free pieces and splitting again gives the pieces back. */
  lemma {:induction false} SplitJoin(parts: seq<string>, sep: char)
    requires |parts| > 0
    requires forall i :: 0 <= i < |parts| ==> sep !in parts[i]
    ensures Split(JoinWith(parts, sep), sep) == parts
  {
    if |parts| == 1 {
      SplitNoSeparator(parts[0], sep);
    } else {
      SplitJoin(parts[1..], sep);
      SplitAround(parts[0], sep, JoinWith(parts[1..], sep));
      SplitNoSeparator(parts[0], sep);
      assert parts == [parts[0]] + parts[1..];
    }
  }

  /** A string splits into exactly three pieces precisely when it is
      `a + sep + b + sep + c` for separator-free `a`, `b` and `c`; those
      are then the pieces. */
  lemma {:induction false} ThreePieces(a: string, b: string, c: string, sep: char)
    requires sep !in a && sep !in b && sep !in c
    ensures Split(a + [sep] + b + [sep] + c, sep) == [a, b, c]
  {
    var bc := b + [sep] + c;
    assert a + [sep] + b + [sep] + c == a + [sep] + bc;
    SplitAround(a, sep, bc);
    SplitAround(b, sep, c);
    SplitNoSeparator(a, sep);
    SplitNoSeparator(b, sep);
    SplitNoSeparator(c, sep);
  }

  /** The converse: three pieces reassemble into the string around two separators. */
  lemma {:induction false} PiecesOfThree(s: string, sep: char)
    requires |Split(s, sep)| == 3
    ensures var p := Split(s, sep); s == p[0] + [sep] + p[1] + [sep] + p[2]
  {
    var p := Split(s, sep);
    JoinSplit(s, sep);
    assert JoinWith(p[1..], sep) == p[1] + [sep] + p[2] by {
      assert p[1..][0] == p[1] && p[1..][1..] == [p[2]];
    }
    assert JoinWith(p, sep) == p[0] + [sep] + JoinWith(p[1..], sep);
  }

  /** If `s` ends with `sep + t` and `t` is separator-free, `t` is the last piece. */
  lemma {:induction false} LastPiece(s: string, sep: char, t: string)
    requires HasSuffix(s, [sep] + t)
    requires sep !in t
    ensures var p := Split(s, sep); p[|p| - 1] == t
  {
    var u := s[..|s| - |t| - 1];
    assert s == u + [sep] + t;
    SplitAround(u, sep, t);
    SplitNoSeparator(t, sep);
  }
}
