/**
 Order-preserving selection from a sequence: the shape shared by the page
 filter of `extract_text_from_pdf` and the result filter of
 `VectorStore.search`. `Filter` keeps the elements a predicate accepts;
 `Positions` names the indices it kept. Both are defined from the back so
 that a loop appending one element at a time matches them step by step.
 */
module Selection {

  /** The elements of `s` that `keep` accepts, in their original order. */
  function Filter<T>(s: seq<T>, keep: T -> bool): (r: seq<T>)
    ensures |r| <= |s|
    ensures forall j :: 0 <= j < |r| ==> keep(r[j])
  {
    if s == [] then []
    else Filter(s[..|s| - 1], keep) + (if keep(s[|s| - 1]) then [s[|s| - 1]] else [])
  }

  /** The indices of `s` whose elements `keep` accepts, ascending. */
  function Positions<T>(s: seq<T>, keep: T -> bool): (pos: seq<nat>)
    ensures forall j :: 0 <= j < |pos| ==> pos[j] < |s| && keep(s[pos[j]])
    ensures forall i, j :: 0 <= i < j < |pos| ==> pos[i] < pos[j]
    ensures forall i :: 0 <= i < |s| && keep(s[i]) ==> i in pos
  {
    if s == [] then []
    else Positions(s[..|s| - 1], keep) + (if keep(s[|s| - 1]) then [|s| - 1] else [])
  }

  /**
   `Filter` selects exactly the accepted positions, in ascending order: its
   j-th element is the element at the j-th accepted index.
   */
  lemma {:induction false} FilterIsSelection<T>(s: seq<T>, keep: T -> bool)
    ensures |Filter(s, keep)| == |Positions(s, keep)|
    ensures forall j :: 0 <= j < |Filter(s, keep)| ==> Filter(s, keep)[j] == s[Positions(s, keep)[j]]
  {
    if s != [] {
      var init := s[..|s| - 1];
      FilterIsSelection(init, keep);
      assert forall i :: 0 <= i < |init| ==> init[i] == s[i];
    }
  }

  /** Filtering distributes over concatenation. */
  lemma {:induction false} FilterAppend<T>(a: seq<T>, b: seq<T>, keep: T -> bool)
    ensures Filter(a + b, keep) == Filter(a, keep) + Filter(b, keep)
    decreases |b|
  {
    if b == [] {
      assert a + b == a;
    } else {
      var b', x := b[..|b| - 1], b[|b| - 1];
      FilterAppend(a, b', keep);
      assert (a + b)[..|a + b| - 1] == a + b' && (a + b)[|a + b| - 1] == x;
      var tail := if keep(x) then [x] else [];
      assert Filter(a + b, keep) == Filter(a + b', keep) + tail;
      assert Filter(b, keep) == Filter(b', keep) + tail;
    }
  }

  /** Two predicates that agree on every element of `s` select the same positions and elements. */
  lemma {:induction false} SelectionAgrees<T>(s: seq<T>, p: T -> bool, q: T -> bool)
    requires forall i :: 0 <= i < |s| ==> p(s[i]) == q(s[i])
    ensures Positions(s, p) == Positions(s, q)
    ensures Filter(s, p) == Filter(s, q)
  {
    if s != [] {
      SelectionAgrees(s[..|s| - 1], p, q);
    }
  }

  /** The results of `f` on the elements of `s`, concatenated in order. */
  function ConcatMap<T, U>(s: seq<T>, f: T -> seq<U>): seq<U> {
    if s == [] then [] else ConcatMap(s[..|s| - 1], f) + f(s[|s| - 1])
  }

  /** `ConcatMap` distributes over concatenation. */
  lemma {:induction false} ConcatMapAppend<T, U>(a: seq<T>, b: seq<T>, f: T -> seq<U>)
    ensures ConcatMap(a + b, f) == ConcatMap(a, f) + ConcatMap(b, f)
    decreases |b|
  {
    if b == [] {
      assert a + b == a;
    } else {
      var b' := b[..|b| - 1];
      ConcatMapAppend(a, b', f);
      assert (a + b)[..|a + b| - 1] == a + b';
    }
  }

  /** The part `ConcatMap` takes from one element is `f` of it. */
  lemma ConcatMapSingle<T, U>(x: T, f: T -> seq<U>)
    ensures ConcatMap([x], f) == f(x)
  {
  }

  /** A sequence is what precedes index `i`, the element there, and what follows. */
  lemma Around<T>(s: seq<T>, i: nat)
    requires i < |s|
    ensures s == s[..i] + [s[i]] + s[i + 1..]
  {
  }

  /** The part one element contributes sits between the parts of what precedes and what follows it. */
  lemma ConcatMapAround<T, U>(pre: seq<T>, x: T, post: seq<T>, f: T -> seq<U>)
    ensures ConcatMap(pre + [x] + post, f) == ConcatMap(pre, f) + f(x) + ConcatMap(post, f)
  {
    ConcatMapAppend(pre + [x], post, f);
    ConcatMapAppend(pre, [x], f);
    ConcatMapSingle(x, f);
  }

  /**
   Splitting `s` at index `i`: `f(s[i])` sits in `ConcatMap(s, f)` right after
   what the elements before it produce, followed by what the elements after it produce.
   */
  lemma ConcatMapSplit<T, U>(s: seq<T>, i: nat, f: T -> seq<U>)
    requires i < |s|
    ensures ConcatMap(s, f) == ConcatMap(s[..i], f) + f(s[i]) + ConcatMap(s[i + 1..], f)
  {
    Around(s, i);
    ConcatMapAround(s[..i], s[i], s[i + 1..], f);
  }

  /** An element for which `f` gives nothing can be dropped from `s` without changing `ConcatMap`. */
  lemma ConcatMapSkip<T, U>(s: seq<T>, i: nat, f: T -> seq<U>)
    requires i < |s| && f(s[i]) == []
    ensures ConcatMap(s, f) == ConcatMap(s[..i] + s[i + 1..], f)
  {
    ConcatMapSplit(s, i, f);
    ConcatMapAppend(s[..i], s[i + 1..], f);
  }

  /** The j-th element `f` gives for `s[i]` sits right after what the elements before `s[i]` produce. */
  lemma ConcatMapAt<T, U>(s: seq<T>, i: nat, f: T -> seq<U>, j: nat)
    requires i < |s| && j < |f(s[i])|
    ensures |ConcatMap(s[..i], f)| + j < |ConcatMap(s, f)|
    ensures ConcatMap(s, f)[|ConcatMap(s[..i], f)| + j] == f(s[i])[j]
  {
    var pre, mine, post := ConcatMap(s[..i], f), f(s[i]), ConcatMap(s[i + 1..], f);
    ConcatMapSplit(s, i, f);
    assert (pre + mine + post)[|pre| + j] == mine[j];
  }
}
