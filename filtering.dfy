/** Streams that keep some of their input, transformed, in input order.
    The discovery loop and the translation loop are both of this shape. */
module Filtering {
  import opened Results

  /** What one input item contributes to the output. */
  function Emit<B>(o: Option<B>): seq<B>
  {
    if o.Some? then [o.value] else []
  }

  /** The output of a loop that visits `s` in order and appends `f(x).value`
      for every item `x` with `f(x) != None`. */
  function FilterMap<A, B>(f: A -> Option<B>, s: seq<A>): (r: seq<B>)
    ensures |r| <= |s|
  {
    if s == [] then [] else FilterMap(f, s[..|s| - 1]) + Emit(f(s[|s| - 1]))
  }

  /** The positions in `s` whose items produce output, in increasing order. */
  function Sources<A, B>(f: A -> Option<B>, s: seq<A>): seq<nat>
  {
    if s == [] then []
    else Sources(f, s[..|s| - 1]) + (if f(s[|s| - 1]).Some? then [|s| - 1] else [])
  }

  /** One more step of the loop: the output for the first `i + 1` items. */
  lemma {:induction false} FilterMapStep<A, B>(f: A -> Option<B>, s: seq<A>, i: nat)
    requires i < |s|
    ensures FilterMap(f, s[..i + 1]) == FilterMap(f, s[..i]) + Emit(f(s[i]))
  {
    assert s[..i + 1][..i] == s[..i];
  }

  /** Filtering a concatenation filters its parts one after the other. */
  lemma {:induction false} FilterMapAppend<A, B>(f: A -> Option<B>, a: seq<A>, b: seq<A>)
    ensures FilterMap(f, a + b) == FilterMap(f, a) + FilterMap(f, b)
  {
    if b != [] {
      var b' := b[..|b| - 1];
      assert (a + b)[..|a + b| - 1] == a + b';
      assert (a + b)[|a + b| - 1] == b[|b| - 1];
      FilterMapAppend(f, a, b');
    } else {
      assert a + b == a;
    }
  }

  /** An item that produces nothing can be dropped. */
  lemma {:induction false} FilterMapSkip<A, B>(f: A -> Option<B>, a: seq<A>, x: A, b: seq<A>)
    requires f(x) == None
    ensures FilterMap(f, a + [x] + b) == FilterMap(f, a) + FilterMap(f, b)
  {
    assert FilterMap(f, [x]) == [] by {
      assert [x][..0] == [];
    }
    FilterMapAppend(f, a, [x]);
    assert FilterMap(f, a + [x]) == FilterMap(f, a);
    FilterMapAppend(f, a + [x], b);
  }

  /** The output, item by item: output `k` is the image of input
      `Sources(f, s)[k]`; those positions strictly increase, so the output
      keeps input order and uses each input at most once; and every input
      that produces something is among them, so nothing is dropped. */
  lemma {:induction false} FilterMapSources<A, B>(f: A -> Option<B>, s: seq<A>)
    ensures |Sources(f, s)| == |FilterMap(f, s)|
    ensures forall k :: 0 <= k < |Sources(f, s)| ==>
      Sources(f, s)[k] < |s| && f(s[Sources(f, s)[k]]) == Some(FilterMap(f, s)[k])
    ensures forall k, l :: 0 <= k < l < |Sources(f, s)| ==> Sources(f, s)[k] < Sources(f, s)[l]
    ensures forall i :: 0 <= i < |s| && f(s[i]).Some? ==> i in Sources(f, s)
  {
    if s != [] {
      var init := s[..|s| - 1];
      FilterMapSources(f, init);
      forall k | 0 <= k < |Sources(f, init)|
        ensures s[Sources(f, init)[k]] == init[Sources(f, init)[k]]
      {
      }
    }
  }

  /** Two stages chained: `f`, and then `g` on whatever `f` produced. */
  function Then<A, B, C>(f: A -> Option<B>, g: B -> Option<C>): A -> Option<C>
  {
    (x: A) => if f(x).Some? then g(f(x).value) else None
  }

  /** Filtering the output of a filter is one filter with the chained stages:
      a pipeline of two such loops keeps the order of the first one's input. */
  lemma {:induction false} FilterMapThen<A, B, C>(f: A -> Option<B>, g: B -> Option<C>, s: seq<A>)
    ensures FilterMap(g, FilterMap(f, s)) == FilterMap(Then(f, g), s)
  {
    if s != [] {
      var init := s[..|s| - 1];
      var x := s[|s| - 1];
      FilterMapThen(f, g, init);
      FilterMapAppend(g, FilterMap(f, init), Emit(f(x)));
      if f(x).Some? {
        assert [f(x).value][..0] == [];
      }
      assert Then(f, g)(x) == if f(x).Some? then g(f(x).value) else None;
    }
  }
}
