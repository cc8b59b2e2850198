/**
 * The filter-and-convert loop several of the scripts write by hand: walk a
 * sequence in order, and push the converted element whenever the conversion
 * applies (`if (...) data.push(record)`).
 */
module Collections {
  import opened Options

  /** The converted elements, in order, of those elements `f` accepts. */
  function FilterMap<A, B>(xs: seq<A>, f: A -> Option<B>): (ys: seq<B>)
    ensures |ys| <= |xs|
    decreases |xs|
  {
    if xs == [] then []
    else
      var ys := FilterMap(xs[..|xs| - 1], f);
      match f(xs[|xs| - 1])
      case Some(y) => ys + [y]
      case None => ys
  }

  /** One more turn of the loop. */
  lemma FilterMapSnoc<A, B>(xs: seq<A>, f: A -> Option<B>, i: nat)
    requires i < |xs|
    ensures FilterMap(xs[..i + 1], f) == FilterMap(xs[..i], f) + (match f(xs[i]) case Some(y) => [y] case None => [])
  {
    assert xs[..i + 1][..i] == xs[..i];
  }

  /** One turn of a loop that builds `FilterMap(xs, f)`: `acc` so far, `y` the conversion of the next element. */
  lemma FilterMapStep<A, B>(xs: seq<A>, f: A -> Option<B>, k: nat, acc: seq<B>, y: Option<B>)
    requires k < |xs| && acc == FilterMap(xs[..k], f) && f(xs[k]) == y
    ensures FilterMap(xs[..k + 1], f) == if y.Some? then acc + [y.value] else acc
  {
    FilterMapSnoc(xs, f, k);
  }

  /** An element is in the output exactly when some input element converts to it. */
  lemma {:induction false} FilterMapMembers<A, B>(xs: seq<A>, f: A -> Option<B>, y: B)
    ensures y in FilterMap(xs, f) <==> exists i :: 0 <= i < |xs| && f(xs[i]) == Some(y)
    decreases |xs|
  {
    if xs != [] {
      var init := xs[..|xs| - 1];
      FilterMapMembers(init, f, y);
      if y in FilterMap(init, f) {
        var i :| 0 <= i < |init| && f(init[i]) == Some(y);
        assert xs[i] == init[i];
      }
      if exists i :: 0 <= i < |xs| && f(xs[i]) == Some(y) {
        var i :| 0 <= i < |xs| && f(xs[i]) == Some(y);
        if i < |init| {
          assert init[i] == xs[i];
        }
      }
    }
  }

  /** A single element is kept exactly when it converts. */
  lemma FilterMapSingle<A, B>(x: A, f: A -> Option<B>)
    ensures FilterMap([x], f) == if f(x).Some? then [f(x).value] else []
  {
    assert [x][..0] == [];
  }

  /** The same, for the elements from index `from` on, counted in the whole sequence. */
  lemma FilterMapSuffixMembers<A, B>(xs: seq<A>, from: nat, f: A -> Option<B>, y: B)
    requires from <= |xs|
    ensures y in FilterMap(xs[from..], f) <==> exists i :: from <= i < |xs| && f(xs[i]) == Some(y)
  {
    var tail := xs[from..];
    FilterMapMembers(tail, f, y);
    if exists i :: 0 <= i < |tail| && f(tail[i]) == Some(y) {
      var i :| 0 <= i < |tail| && f(tail[i]) == Some(y);
      assert xs[from + i] == tail[i];
    }
    if exists i :: from <= i < |xs| && f(xs[i]) == Some(y) {
      var i :| from <= i < |xs| && f(xs[i]) == Some(y);
      assert tail[i - from] == xs[i];
    }
  }

  /** When every element converts, every converted element is kept, in order. */
  lemma {:induction false} FilterMapAllKept<A, B>(xs: seq<A>, f: A -> Option<B>)
    requires forall i :: 0 <= i < |xs| ==> f(xs[i]).Some?
    ensures |FilterMap(xs, f)| == |xs|
    ensures forall i :: 0 <= i < |xs| ==> Some(FilterMap(xs, f)[i]) == f(xs[i])
    decreases |xs|
  {
    if xs != [] {
      var init := xs[..|xs| - 1];
      assert forall i :: 0 <= i < |init| ==> init[i] == xs[i];
      FilterMapAllKept(init, f);
    }
  }

  /** Converting a concatenation converts each part. */
  lemma {:induction false} FilterMapAppend<A, B>(xs: seq<A>, zs: seq<A>, f: A -> Option<B>)
    ensures FilterMap(xs + zs, f) == FilterMap(xs, f) + FilterMap(zs, f)
    decreases |zs|
  {
    if zs == [] {
      assert xs + zs == xs;
    } else {
      var init := zs[..|zs| - 1];
      assert (xs + zs)[..|xs + zs| - 1] == xs + init;
      FilterMapAppend(xs, init, f);
    }
  }

  /** The outputs of `f` on each element, concatenated in order: a loop nested in a loop. */
  function FlatMap<A, B>(xs: seq<A>, f: A -> seq<B>): seq<B>
    decreases |xs|
  {
    if xs == [] then [] else FlatMap(xs[..|xs| - 1], f) + f(xs[|xs| - 1])
  }

  /** One more turn of the outer loop. */
  lemma FlatMapSnoc<A, B>(xs: seq<A>, f: A -> seq<B>, i: nat)
    requires i < |xs|
    ensures FlatMap(xs[..i + 1], f) == FlatMap(xs[..i], f) + f(xs[i])
  {
    assert xs[..i + 1][..i] == xs[..i];
  }

  /** An element is in the output exactly when the output of some input element holds it. */
  lemma {:induction false} FlatMapMembers<A, B>(xs: seq<A>, f: A -> seq<B>, y: B)
    ensures y in FlatMap(xs, f) <==> exists i :: 0 <= i < |xs| && y in f(xs[i])
    decreases |xs|
  {
    if xs != [] {
      var init := xs[..|xs| - 1];
      FlatMapMembers(init, f, y);
      if y in FlatMap(init, f) {
        var i :| 0 <= i < |init| && y in f(init[i]);
        assert xs[i] == init[i];
      }
      if exists i :: 0 <= i < |xs| && y in f(xs[i]) {
        var i :| 0 <= i < |xs| && y in f(xs[i]);
        if i < |init| {
          assert init[i] == xs[i];
        }
      }
    }
  }

  /** `xs.filter(p)`. */
  function Filter<A>(xs: seq<A>, p: A -> bool): (ys: seq<A>)
    ensures |ys| <= |xs|
    ensures forall i :: 0 <= i < |ys| ==> p(ys[i])
    decreases |xs|
  {
    if xs == [] then []
    else Filter(xs[..|xs| - 1], p) + (if p(xs[|xs| - 1]) then [xs[|xs| - 1]] else [])
  }

  /** The elements kept are exactly the input elements that pass the test. */
  lemma {:induction false} FilterMembers<A>(xs: seq<A>, p: A -> bool, y: A)
    ensures y in Filter(xs, p) <==> y in xs && p(y)
    decreases |xs|
  {
    if xs != [] {
      var init := xs[..|xs| - 1];
      FilterMembers(init, p, y);
      assert xs == init + [xs[|xs| - 1]];
    }
  }

  /** Filtering a concatenation filters each part. */
  lemma {:induction false} FilterAppend<A>(xs: seq<A>, ys: seq<A>, p: A -> bool)
    ensures Filter(xs + ys, p) == Filter(xs, p) + Filter(ys, p)
    decreases |ys|
  {
    if ys != [] {
      var init := ys[..|ys| - 1];
      FilterAppend(xs, init, p);
      assert (xs + ys)[..|xs + ys| - 1] == xs + init;
      assert (xs + ys)[|xs + ys| - 1] == ys[|ys| - 1];
    } else {
      assert xs + ys == xs;
    }
  }

  /** Regrouping a concatenation around a separator. */
  lemma Regroup<A>(a: seq<A>, sep: seq<A>, w: seq<A>, b: seq<A>)
    ensures a + sep + w + sep + b == a + sep + (w + sep + b)
  {
  }

  /** When every element passes the test, the filter keeps the sequence as it is. */
  lemma {:induction false} FilterAllKept<A>(xs: seq<A>, p: A -> bool)
    requires forall i :: 0 <= i < |xs| ==> p(xs[i])
    ensures Filter(xs, p) == xs
    decreases |xs|
  {
    if xs != [] {
      var init := xs[..|xs| - 1];
      assert forall i :: 0 <= i < |init| ==> init[i] == xs[i];
      FilterAllKept(init, p);
      assert xs == init + [xs[|xs| - 1]];
    }
  }

  /** The first index in `from..limit` whose element satisfies `p`: a `for` loop with a `break`. */
  function FirstIndex<A>(xs: seq<A>, from: nat, limit: nat, p: A -> bool): (r: Option<nat>)
    requires limit <= |xs|
    ensures r.Some? ==> from <= r.value < limit && p(xs[r.value])
    ensures r.Some? ==> forall i :: from <= i < r.value ==> !p(xs[i])
    ensures r.None? ==> forall i :: from <= i < limit ==> !p(xs[i])
    decreases limit - from
  {
    if from >= limit then None
    else if p(xs[from]) then Some(from)
    else FirstIndex(xs, from + 1, limit, p)
  }

  /** `Math.min(a, b)`. */
  function Min(a: nat, b: nat): (m: nat)
    ensures m <= a && m <= b && (m == a || m == b)
  {
    if a < b then a else b
  }
}
