/**
 * What `move` calls do to a real `MagicString`. The editor renders the
 * characters of its original text in some order; at first that order is the
 * text's own. `move(start, end, index)` takes out the characters from the one
 * at `start` through the one before `end`, as they stand in the current
 * order, and puts them back right before the character at `index`, or at the
 * very end when `index` is the text's length. A move whose `index` lies in
 * `[start, end]` throws.
 */
module Moves {
  import opened Wrappers
  import opened Edits

  /** The positions `a`, `a + 1`, …, `b - 1`. */
  function Iota(a: int, b: int): (r: seq<int>)
    ensures |r| == if a <= b then b - a else 0
    ensures forall k :: 0 <= k < |r| ==> r[k] == a + k
  {
    if a < b then seq(b - a, k requires 0 <= k < b - a => a + k) else []
  }

  /** The first place where `x` stands in `xs`, or `|xs|` when it is not there. */
  function IndexOf(xs: seq<int>, x: int): (r: nat)
    ensures r <= |xs|
    ensures r < |xs| ==> xs[r] == x
    ensures forall k :: 0 <= k < r ==> xs[k] != x
  {
    if |xs| == 0 then 0
    else if xs[0] == x then 0
    else 1 + IndexOf(xs[1..], x)
  }

  /**
   * `move(s, e, i)` on the rendering order `order`: `None` when the library
   * throws, or when the selection is not a run of the order (an empty
   * selection, or positions outside the text), which the model leaves open.
   */
  function Moved(order: seq<int>, s: int, e: int, i: int): Option<seq<int>>
  {
    if s <= i <= e then None
    else
      var p := IndexOf(order, s);
      var q := IndexOf(order, e - 1) + 1;
      if !(p < q <= |order|) then None
      else
        var block := order[p..q];
        var rest := order[..p] + order[q..];
        var at := IndexOf(rest, i);
        Some(rest[..at] + block + rest[at..])
  }

  /** A log of moves, applied in order; any other call is outside this reading. */
  function MovesOrder(order: seq<int>, cs: seq<Call>): Option<seq<int>>
    decreases |cs|
  {
    if |cs| == 0 then Some(order)
    else
      match MovesOrder(order, cs[..|cs| - 1])
      case None => None
      case Some(o) =>
        var c := cs[|cs| - 1];
        if c.Move? then Moved(o, c.start, c.end, c.index) else None
  }

  /** One more move of a log, after a prefix that did not throw. */
  lemma MovesOrderNext(order: seq<int>, cs: seq<Call>, k: nat, o: seq<int>)
    requires 0 < k <= |cs| && cs[k - 1].Move?
    requires MovesOrder(order, cs[..k - 1]) == Some(o)
    ensures MovesOrder(order, cs[..k]) == Moved(o, cs[k - 1].start, cs[k - 1].end, cs[k - 1].index)
  {
    assert cs[..k][..k - 1] == cs[..k - 1];
  }

  /** Every position of `order` is one of a text of length `n`. */
  predicate Inside(order: seq<int>, n: int)
  {
    forall k :: 0 <= k < |order| ==> 0 <= order[k] < n
  }

  /** The text an editor on `text` renders in the order `order`. */
  function Rendered(text: string, order: seq<int>): (r: string)
    requires Inside(order, |text|)
    ensures |r| == |order|
  {
    seq(|order|, k requires 0 <= k < |order| => text[order[k]])
  }

  /** Every position in `xs` is below `b`. */
  predicate Below(xs: seq<int>, b: int) {
    forall k :: 0 <= k < |xs| ==> xs[k] < b
  }

  lemma BelowAppend(a: seq<int>, b: seq<int>, x: int)
    requires Below(a, x) && Below(b, x)
    ensures Below(a + b, x)
  {
    forall k | 0 <= k < |a + b|
      ensures (a + b)[k] < x
    {
      if k < |a| {
        assert (a + b)[k] == a[k];
      } else {
        assert (a + b)[k] == b[k - |a|];
      }
    }
  }

  /** A position that none of `a` holds is found in `a + b` where `b` has it, shifted by `|a|`. */
  lemma {:induction false} IndexOfAfter(a: seq<int>, b: seq<int>, x: int)
    requires Below(a, x)
    ensures IndexOf(a + b, x) == |a| + IndexOf(b, x)
    decreases |a|
  {
    if |a| > 0 {
      assert a[0] != x;
      assert Below(a[1..], x);
      assert (a + b)[0] == a[0];
      assert (a + b)[1..] == a[1..] + b;
      IndexOfAfter(a[1..], b, x);
    } else {
      assert a + b == b;
    }
  }

  /** Consecutive runs of positions join up. */
  lemma IotaSplit(a: int, b: int, c: int)
    requires a <= b <= c
    ensures Iota(a, b) + Iota(b, c) == Iota(a, c)
  {
  }

  lemma BelowMono(xs: seq<int>, a: int, b: int)
    requires Below(xs, a) && a <= b
    ensures Below(xs, b)
  {
  }

  /**
   * Moving a run `[s, e)` that stands as a block after positions all below
   * `s`, to a position `i` past it: the block comes out and goes back in right
   * before `i`, and everything else keeps its order.
   */
  lemma MovedBlock(a: seq<int>, z1: seq<int>, z2: seq<int>, s: int, e: int, i: int)
    requires s < e < i
    requires Below(a, s) && Below(z1, i) && |z2| > 0 && z2[0] == i
    ensures Moved(a + Iota(s, e) + z1 + z2, s, e, i) == Some(a + z1 + Iota(s, e) + z2)
  {
    var m := Iota(s, e);
    var z := z1 + z2;
    var order := a + m + z;
    assert a + m + z1 + z2 == order;
    RunFound(a, z, s, e);
    Cut3(a, m, z);
    var rest := a + z;
    BelowMono(a, s, i);
    BelowAppend(a, z1, i);
    assert rest == (a + z1) + z2;
    IndexOfAfter(a + z1, z2, i);
    assert IndexOf(z2, i) == 0;
    Cut2(a + z1, z2);
    MovedAt(order, s, e, i, |a|, |a| + |m|, |a| + |z1|);
  }

  /** `Moved` once the three places it looks up are known. */
  lemma MovedAt(order: seq<int>, s: int, e: int, i: int, p: nat, q: nat, at: nat)
    requires !(s <= i <= e)
    requires IndexOf(order, s) == p && IndexOf(order, e - 1) + 1 == q && p < q <= |order|
    requires IndexOf(order[..p] + order[q..], i) == at
    ensures
      var rest := order[..p] + order[q..];
      Moved(order, s, e, i) == Some(rest[..at] + order[p..q] + rest[at..])
  {
  }

  lemma Cut2(x: seq<int>, y: seq<int>)
    ensures (x + y)[..|x|] == x && (x + y)[|x|..] == y
  {
  }

  lemma Cut3(a: seq<int>, m: seq<int>, z: seq<int>)
    ensures (a + m + z)[..|a|] == a && (a + m + z)[|a|..|a| + |m|] == m && (a + m + z)[|a| + |m|..] == z
  {
  }

  /** A run `[s, e)` right after positions below `s` is found where it stands. */
  lemma RunFound(a: seq<int>, z: seq<int>, s: int, e: int)
    requires s < e && Below(a, s)
    ensures IndexOf(a + Iota(s, e) + z, s) == |a|
    ensures IndexOf(a + Iota(s, e) + z, e - 1) + 1 == |a| + (e - s)
  {
    var m, m1, last := Iota(s, e), Iota(s, e - 1), Iota(e - 1, e);
    Regroup3(a, m, z);
    RunStartFound(a, m + z, s);
    IotaSplit(s, e - 1, e);
    BelowMono(a, s, e - 1);
    BelowAppend(a, m1, e - 1);
    Regroup4(a, m1, last, z);
    RunStartFound(a + m1, last + z, e - 1);
  }

  lemma Regroup3(a: seq<int>, m: seq<int>, z: seq<int>)
    ensures a + m + z == a + (m + z)
  {
  }

  lemma Regroup4(a: seq<int>, m: seq<int>, t: seq<int>, z: seq<int>)
    ensures a + (m + t) + z == (a + m) + (t + z)
  {
  }

  /** A position right after positions below it is found there. */
  lemma RunStartFound(a: seq<int>, z: seq<int>, x: int)
    requires Below(a, x) && |z| > 0 && z[0] == x
    ensures IndexOf(a + z, x) == |a|
  {
    IndexOfAfter(a, z, x);
  }

  /** Rendering a run of positions renders that slice of the text. */
  lemma RenderedIota(text: string, a: int, b: int)
    requires 0 <= a <= b <= |text|
    ensures Inside(Iota(a, b), |text|)
    ensures Rendered(text, Iota(a, b)) == text[a..b]
  {
  }

  /** Rendering an order made of two parts renders each part in turn. */
  lemma RenderedAppend(text: string, x: seq<int>, y: seq<int>)
    requires Inside(x, |text|) && Inside(y, |text|)
    ensures Inside(x + y, |text|)
    ensures Rendered(text, x + y) == Rendered(text, x) + Rendered(text, y)
  {
    assert forall k :: 0 <= k < |x + y| ==> (x + y)[k] == if k < |x| then x[k] else y[k - |x|];
  }
}
