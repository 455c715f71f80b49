/**
 * What a collection of image descriptors computes from the answers of its members:
 * the finest pixel scale over all images, and the colour at a direction, either
 * the first answer in list order or the per-channel mean of every answer.
 */
module Blending {
  import opened Wrappers
  import opened JavaNumerics
  import opened Imaging

  /** A pixel scale in radians per pixel, along the width and along the height. */
  type Scale = (real, real)

  /** Each component lowered to the other scale's, when that one is smaller. */
  function Lower(s: Scale, t: Scale): Scale {
    (if t.0 < s.0 then t.0 else s.0, if t.1 < s.1 then t.1 else s.1)
  }

  /** The scale obtained by lowering (Double.MAX_VALUE, Double.MAX_VALUE) by every scale in turn. */
  function LowestScale(scales: seq<Scale>): Scale {
    if scales == [] then (DOUBLE_MAX, DOUBLE_MAX)
    else Lower(LowestScale(scales[..|scales| - 1]), scales[|scales| - 1])
  }

  /** The minimum of the `k`-th components of `scales`, or Double.MAX_VALUE if there are none below it. */
  ghost predicate IsComponentMin(scales: seq<Scale>, r: real, k: nat)
    requires k < 2
  {
    r <= DOUBLE_MAX
    && (forall i :: 0 <= i < |scales| ==> r <= Component(scales[i], k))
    && (r == DOUBLE_MAX || exists i :: 0 <= i < |scales| && r == Component(scales[i], k))
  }

  function Component(s: Scale, k: nat): real
    requires k < 2
  {
    if k == 0 then s.0 else s.1
  }

  /** The running minimum is the component-wise minimum of all scales, capped at Double.MAX_VALUE. */
  lemma {:induction false} LowestScaleIsMinimum(scales: seq<Scale>)
    ensures IsComponentMin(scales, LowestScale(scales).0, 0)
    ensures IsComponentMin(scales, LowestScale(scales).1, 1)
  {
    if scales != [] {
      var init := scales[..|scales| - 1];
      LowestScaleIsMinimum(init);
      var last := |scales| - 1;
      forall k | 0 <= k < 2
        ensures IsComponentMin(scales, Component(LowestScale(scales), k), k)
      {
        var p := Component(LowestScale(init), k);
        if p != DOUBLE_MAX && Component(scales[last], k) >= p {
          var i :| 0 <= i < |init| && p == Component(init[i], k);
          assert scales[i] == init[i];
        }
        forall i | 0 <= i < |scales|
          ensures Component(LowestScale(scales), k) <= Component(scales[i], k)
        {
          if i < last {
            assert scales[i] == init[i];
          }
        }
      }
      assert LowestScale(scales).0 == Component(LowestScale(scales), 0);
      assert LowestScale(scales).1 == Component(LowestScale(scales), 1);
    }
  }

  /** The minimum characterisation has exactly one solution for a given multiset of scales. */
  lemma ComponentMinUnique(s1: seq<Scale>, s2: seq<Scale>, r1: real, r2: real, k: nat)
    requires k < 2 && multiset(s1) == multiset(s2)
    requires IsComponentMin(s1, r1, k) && IsComponentMin(s2, r2, k)
    ensures r1 == r2
  {
    if r2 != DOUBLE_MAX {
      var j :| 0 <= j < |s2| && r2 == Component(s2[j], k);
      assert s2[j] in multiset(s1);
      var i :| 0 <= i < |s1| && s1[i] == s2[j];
    }
    if r1 != DOUBLE_MAX {
      var i :| 0 <= i < |s1| && r1 == Component(s1[i], k);
      assert s1[i] in multiset(s2);
      var j :| 0 <= j < |s2| && s2[j] == s1[i];
    }
  }

  /** The finest scale does not depend on the order in which the images were added. */
  lemma LowestScaleOrderFree(s1: seq<Scale>, s2: seq<Scale>)
    requires multiset(s1) == multiset(s2)
    ensures LowestScale(s1) == LowestScale(s2)
  {
    LowestScaleIsMinimum(s1);
    LowestScaleIsMinimum(s2);
    ComponentMinUnique(s1, s2, LowestScale(s1).0, LowestScale(s2).0, 0);
    ComponentMinUnique(s1, s2, LowestScale(s1).1, LowestScale(s2).1, 1);
  }

  /** The scales of the images `fs`, in list order. */
  function ScalesOf<F>(scaleOf: F -> Scale, fs: seq<F>): seq<Scale> {
    seq(|fs|, i requires 0 <= i < |fs| => scaleOf(fs[i]))
  }

  /** Adding one image lowers the running minimum by that image's scale. */
  lemma LowestScaleAppend(scales: seq<Scale>, s: Scale)
    ensures LowestScale(scales + [s]) == Lower(LowestScale(scales), s)
  {
    assert (scales + [s])[..|scales|] == scales;
  }

  // ---- Colours -------------------------------------------------------------

  datatype Band = Alpha | Red | Green | Blue

  function Level(c: Color, b: Band): Channel {
    match b
    case Alpha => c.alpha
    case Red => c.red
    case Green => c.green
    case Blue => c.blue
  }

  /** The colours of the answers that are not null, in list order. */
  function Hits(answers: seq<Option<Color>>): (cs: seq<Color>)
    ensures |cs| <= |answers|
  {
    if answers == [] then []
    else
      var last := answers[|answers| - 1];
      Hits(answers[..|answers| - 1]) + (if last.Some? then [last.value] else [])
  }

  function Sum(cs: seq<Color>, b: Band): int {
    if cs == [] then 0 else Sum(cs[..|cs| - 1], b) + Level(cs[|cs| - 1], b)
  }

  lemma SumAppend(cs: seq<Color>, c: Color, b: Band)
    ensures Sum(cs + [c], b) == Sum(cs, b) + Level(c, b)
  {
    assert (cs + [c])[..|cs|] == cs;
  }

  lemma HitsAppend(answers: seq<Option<Color>>, a: Option<Color>)
    ensures Hits(answers + [a]) == Hits(answers) + (if a.Some? then [a.value] else [])
  {
    assert (answers + [a])[..|answers|] == answers;
  }

  lemma HitsStep(answers: seq<Option<Color>>, i: nat)
    requires i < |answers|
    ensures answers[i].None? ==> Hits(answers[..i + 1]) == Hits(answers[..i])
    ensures answers[i].Some? ==> Hits(answers[..i + 1]) == Hits(answers[..i]) + [answers[i].value]
  {
    assert answers[..i + 1] == answers[..i] + [answers[i]];
    HitsAppend(answers[..i], answers[i]);
    assert Hits(answers[..i]) + [] == Hits(answers[..i]);
  }

  /** The answers of the images `fs` for the direction (lon, lat), in list order. */
  function AskedAt<F>(fs: seq<F>, colorAt: (F, real, real) -> Option<Color>, lon: real, lat: real): seq<Option<Color>> {
    seq(|fs|, i requires 0 <= i < |fs| => colorAt(fs[i], lon, lat))
  }

  /**
   * The answers of the images `fs` for a HEALPix pixel: an image is asked for its
   * colour only when it covers the pixel at that order; otherwise its answer is null.
   */
  function AskedInPixel<F>(fs: seq<F>, isInside: (F, int, int) -> bool, colorAtPixel: (F, int) -> Option<Color>,
                           order: int, pixel: int): seq<Option<Color>> {
    seq(|fs|, i requires 0 <= i < |fs| => if isInside(fs[i], order, pixel) then colorAtPixel(fs[i], pixel) else None)
  }

  /** `new Color(red / n, green / n, blue / n, alpha / n)` over `n` colours. */
  function Mean(cs: seq<Color>): Color
    requires |cs| > 0
  {
    var n := |cs|;
    SumBounds(cs, Alpha, 0, 255);
    SumBounds(cs, Red, 0, 255);
    SumBounds(cs, Green, 0, 255);
    SumBounds(cs, Blue, 0, 255);
    DivBetween(Sum(cs, Alpha), n, 0, 255);
    DivBetween(Sum(cs, Red), n, 0, 255);
    DivBetween(Sum(cs, Green), n, 0, 255);
    DivBetween(Sum(cs, Blue), n, 0, 255);
    Color(Sum(cs, Red) / n, Sum(cs, Green) / n, Sum(cs, Blue) / n, Sum(cs, Alpha) / n)
  }

  /** The mean of every answer that is not null; null when there is none. */
  function Average(answers: seq<Option<Color>>): Option<Color> {
    var cs := Hits(answers);
    if cs == [] then None else Some(Mean(cs))
  }

  /** `r` is the first answer in list order that is not null, or null when every answer is. */
  ghost predicate IsFirstHit(answers: seq<Option<Color>>, r: Option<Color>) {
    (r.None? <==> forall i :: 0 <= i < |answers| ==> answers[i].None?)
    && (r.Some? ==> exists k :: 0 <= k < |answers| && answers[k] == r
                      && forall j :: 0 <= j < k ==> answers[j].None?)
  }

  lemma {:induction false} SumBounds(cs: seq<Color>, b: Band, lo: int, hi: int)
    requires forall i :: 0 <= i < |cs| ==> lo <= Level(cs[i], b) <= hi
    ensures |cs| * lo <= Sum(cs, b) <= |cs| * hi
  {
    if cs != [] {
      var n := |cs|;
      SumBounds(cs[..n - 1], b, lo, hi);
      assert lo <= Level(cs[n - 1], b) <= hi;
      MulSucc(n, lo);
      MulSucc(n, hi);
    }
  }

  lemma MulSucc(n: int, x: int)
    ensures (n - 1) * x + x == n * x
  {
  }

  /** Hits is empty exactly when every answer is null. */
  lemma {:induction false} HitsEmpty(answers: seq<Option<Color>>)
    ensures Hits(answers) == [] <==> forall i :: 0 <= i < |answers| ==> answers[i].None?
  {
    if answers != [] {
      var init := answers[..|answers| - 1];
      HitsEmpty(init);
      assert forall i :: 0 <= i < |init| ==> init[i] == answers[i];
    }
  }

  /** The hits are exactly the values of the non-null answers. */
  lemma {:induction false} HitsCount(answers: seq<Option<Color>>, c: Color)
    ensures multiset(Hits(answers))[c] == multiset(answers)[Some(c)]
  {
    if answers != [] {
      var init := answers[..|answers| - 1];
      HitsCount(init, c);
      assert answers == init + [answers[|answers| - 1]];
    }
  }

  lemma {:induction false} HitsMember(answers: seq<Option<Color>>, k: nat)
    requires k < |Hits(answers)|
    ensures exists i :: 0 <= i < |answers| && answers[i] == Some(Hits(answers)[k])
  {
    var init := answers[..|answers| - 1];
    if k < |Hits(init)| {
      HitsMember(init, k);
      var i :| 0 <= i < |init| && init[i] == Some(Hits(init)[k]);
      assert answers[i] == init[i];
    } else {
      assert answers[|answers| - 1] == Some(Hits(answers)[k]);
    }
  }

  /** Removing one colour from a sum subtracts its level. */
  lemma {:induction false} SumRemove(cs: seq<Color>, j: nat, b: Band)
    requires j < |cs|
    ensures Sum(cs, b) == Sum(cs[..j] + cs[j + 1..], b) + Level(cs[j], b)
  {
    var rest := cs[..j] + cs[j + 1..];
    if j == |cs| - 1 {
      assert rest == cs[..|cs| - 1];
    } else {
      var init := cs[..|cs| - 1];
      SumRemove(init, j, b);
      assert init[..j] + init[j + 1..] == rest[..|rest| - 1];
      assert rest[|rest| - 1] == cs[|cs| - 1];
    }
  }

  /** Sums depend only on the multiset of colours. */
  lemma {:induction false} SumPermutation(c1: seq<Color>, c2: seq<Color>, b: Band)
    requires multiset(c1) == multiset(c2)
    ensures Sum(c1, b) == Sum(c2, b)
  {
    if c1 != [] {
      var last := c1[|c1| - 1];
      assert last in multiset(c2);
      var j :| 0 <= j < |c2| && c2[j] == last;
      var rest2 := c2[..j] + c2[j + 1..];
      MultisetRemoveLast(c1, c2, j);
      SumPermutation(c1[..|c1| - 1], rest2, b);
      SumRemove(c2, j, b);
    } else {
      assert |c2| == |multiset(c2)|;
    }
  }

  lemma MultisetRemoveLast(c1: seq<Color>, c2: seq<Color>, j: nat)
    requires multiset(c1) == multiset(c2) && c1 != [] && j < |c2| && c2[j] == c1[|c1| - 1]
    ensures multiset(c1[..|c1| - 1]) == multiset(c2[..j] + c2[j + 1..])
  {
    var last := c1[|c1| - 1];
    assert c2 == c2[..j] + [c2[j]] + c2[j + 1..];
    assert c1 == c1[..|c1| - 1] + [last];
    assert multiset(c2) == multiset(c2[..j]) + multiset([last]) + multiset(c2[j + 1..]);
    assert multiset(c1) == multiset(c1[..|c1| - 1]) + multiset([last]);
    var rest2 := c2[..j] + c2[j + 1..];
    assert multiset(rest2) == multiset(c2[..j]) + multiset(c2[j + 1..]);
    forall x ensures multiset(c1[..|c1| - 1])[x] == multiset(rest2)[x] {
      assert multiset(c1)[x] == multiset(c2)[x];
    }
  }

  /** The averaged answer is null exactly when no answer is. */
  lemma AverageNullIff(answers: seq<Option<Color>>)
    ensures Average(answers).None? <==> forall i :: 0 <= i < |answers| ==> answers[i].None?
  {
    HitsEmpty(answers);
  }

  /** Every averaged channel lies between the smallest and the largest level of that channel among the answers. */
  lemma AverageBetween(answers: seq<Option<Color>>, b: Band)
    requires Average(answers).Some?
    ensures exists i, j :: 0 <= i < |answers| && 0 <= j < |answers|
              && answers[i].Some? && answers[j].Some?
              && Level(answers[i].value, b) <= Level(Average(answers).value, b) <= Level(answers[j].value, b)
  {
    var cs := Hits(answers);
    var m := Average(answers).value;
    assert m == Mean(cs);
    var lo := ArgMin(cs, b);
    var hi := ArgMax(cs, b);
    MeanBetween(cs, b);
    HitsMember(answers, lo);
    HitsMember(answers, hi);
    var i :| 0 <= i < |answers| && answers[i] == Some(cs[lo]);
    var j :| 0 <= j < |answers| && answers[j] == Some(cs[hi]);
    assert answers[i].Some? && answers[j].Some?;
    assert Level(answers[i].value, b) <= Level(m, b) <= Level(answers[j].value, b);
  }

  /** A channel of the mean lies between that channel's smallest and largest level. */
  lemma MeanBetween(cs: seq<Color>, b: Band)
    requires |cs| > 0
    ensures Level(cs[ArgMin(cs, b)], b) <= Level(Mean(cs), b) <= Level(cs[ArgMax(cs, b)], b)
  {
    var n := |cs|;
    var lo := Level(cs[ArgMin(cs, b)], b);
    var hi := Level(cs[ArgMax(cs, b)], b);
    SumBounds(cs, b, lo, hi);
    MeanLevel(cs, b);
    DivBetween(Sum(cs, b), n, lo, hi);
  }

  lemma MeanLevel(cs: seq<Color>, b: Band)
    requires |cs| > 0
    ensures Level(Mean(cs), b) == Sum(cs, b) / |cs|
  {
    match b
    case Alpha =>
    case Red =>
    case Green =>
    case Blue =>
  }

  lemma DivBetween(s: int, n: int, lo: int, hi: int)
    requires n > 0 && n * lo <= s <= n * hi
    ensures lo <= s / n <= hi
  {
    var q, r := s / n, s % n;
    assert s == n * q + r && 0 <= r < n;
    assert n * (q + 1) == n * q + n;
    MulCancel(n, lo, q + 1);
    MulCancelLe(n, q, hi);
  }

  lemma MulCancel(n: int, a: int, b: int)
    requires n > 0 && n * a < n * b
    ensures a < b
  {

  }

  lemma MulCancelLe(n: int, a: int, b: int)
    requires n > 0 && n * a <= n * b
    ensures a <= b
  {

  }

  function ArgMin(cs: seq<Color>, b: Band): (k: nat)
    requires |cs| > 0
    ensures k < |cs| && forall i :: 0 <= i < |cs| ==> Level(cs[k], b) <= Level(cs[i], b)
  {
    if |cs| == 1 then 0
    else
      var k := ArgMin(cs[..|cs| - 1], b);
      if Level(cs[|cs| - 1], b) < Level(cs[k], b) then |cs| - 1 else k
  }

  function ArgMax(cs: seq<Color>, b: Band): (k: nat)
    requires |cs| > 0
    ensures k < |cs| && forall i :: 0 <= i < |cs| ==> Level(cs[i], b) <= Level(cs[k], b)
  {
    if |cs| == 1 then 0
    else
      var k := ArgMax(cs[..|cs| - 1], b);
      if Level(cs[k], b) < Level(cs[|cs| - 1], b) then |cs| - 1 else k
  }

  /** The averaged answer does not depend on the order of the answers. */
  lemma AverageOrderFree(a1: seq<Option<Color>>, a2: seq<Option<Color>>)
    requires multiset(a1) == multiset(a2)
    ensures Average(a1) == Average(a2)
  {
    var c1, c2 := Hits(a1), Hits(a2);
    forall c ensures multiset(c1)[c] == multiset(c2)[c] {
      HitsCount(a1, c);
      HitsCount(a2, c);
    }
    assert multiset(c1) == multiset(c2);
    assert |c1| == |multiset(c1)| == |multiset(c2)| == |c2|;
    if c1 != [] {
      SumPermutation(c1, c2, Alpha);
      SumPermutation(c1, c2, Red);
      SumPermutation(c1, c2, Green);
      SumPermutation(c1, c2, Blue);
    }
  }

  /** With a single hit the mean is that colour: the first-match policy reports the colour unchanged. */
  lemma MeanOfOne(c: Color)
    ensures Mean([c]) == c
  {
    forall b ensures Sum([c], b) == Level(c, b) {
      SumAppend([], c, b);
      assert [] + [c] == [c];
    }
    assert Sum([c], Alpha) == c.alpha && Sum([c], Red) == c.red;
    assert Sum([c], Green) == c.green && Sum([c], Blue) == c.blue;
  }
}
