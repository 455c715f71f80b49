/**
 * A HEALPix map of Java bytes: one value per pixel of a sphere tessellated at
 * resolution `nside` (12·nside² pixels), numbered in the RING or the NESTED scheme.
 *
 * The pixel-numbering functions of the HEALPix library (nest2ring, ring2nest,
 * xyf2pix, pix2xyf, the swap-cycle table and approx) are not part of this model;
 * they are passed in as a `Geometry` value, and each method states as a
 * precondition the laws of those functions that it relies on.
 */
module HealpixMapByte {
  import opened JavaNumerics
  import opened HealpixLibrary

  /** A pixel given by its coordinates inside one of the twelve base faces. */
  datatype Xyf = Xyf(ix: int, iy: int, face: int)

  /** The numbering functions of healpix.essentials.HealpixBase, each taking the nside first. */
  datatype Geometry = Geometry(
    nest2ring: (int, int) -> int,
    ring2nest: (int, int) -> int,
    xyf2pix: (int, Scheme, int, int, int) -> int,
    pix2xyf: (int, Scheme, int) -> Xyf,
    /** swap_cycle[order]: one starting pixel per cycle of the NESTED/RING renumbering */
    swapCycle: int -> seq<int>,
    /** HealpixUtils.approx(v, 0, 1e-5) for a byte value v */
    approxZero: int -> bool)

  /** Java `1 << n` on ints: the shift distance is taken modulo 32. */
  function IntShiftOne(n: int): int {
    LongToInt(Pow2(n % 32))
  }

  /** The length that `new byte[(int) getNpix()]` allocates: the pixel count narrowed to an int. */
  function AllocatedLength(nside: int): int {
    LongToInt(Npix(nside))
  }

  /** The check the class makes as written: `nside <= (1 << JHIPS.ORDER)`. */
  predicate ResolutionCheck(nside: int, maxOrder: nat) {
    nside <= IntShiftOne(maxOrder)
  }

  /** The corrected check: the one written, and the pixel count must fit the int that sizes the array. */
  predicate Admissible(nside: int, maxOrder: nat) {
    ResolutionCheck(nside, maxOrder) && Npix(nside) <= INT_MAX
  }

  /** Once the pixel count fits an int, the allocation has exactly one byte per pixel. */
  lemma AdmissibleAllocatesNpix(nside: int)
    requires nside >= 1 && Npix(nside) <= INT_MAX
    ensures AllocatedLength(nside) == Npix(nside)
  {
    var n := Npix(nside);
    assert nside * nside >= 1 by { MulMonotone(nside, 1, nside); }
    assert 0 <= n < 0x1_0000_0000;
    assert n % 0x1_0000_0000 == n;
  }

  /** A finer resolution has more pixels, so two maps of different nside never share an array. */
  lemma NpixIncreasing(small: int, large: int)
    requires 1 <= small < large
    ensures Npix(small) < Npix(large)
  {
    MulMonotone(small, small, large);
    MulMonotone(large, 1, large - small);
    assert large * large - small * large == large * (large - small);
  }

  /**
   * As written, with JHIPS.ORDER at least 15 the check lets nside = 2^15 through,
   * and `(int) getNpix()` is then 0: the map gets an empty array for 12·2^30 pixels.
   * With nside = 2^14 the narrowed length is negative.
   */
  lemma AllocationWrapsAsWritten(maxOrder: nat)
    requires 15 <= maxOrder <= 30
    ensures ResolutionCheck(Pow2(15), maxOrder) && LibraryNside(Pow2(15), Nested)
    ensures AllocatedLength(Pow2(15)) == 0 && Npix(Pow2(15)) == 12 * 0x4000_0000
    ensures AllocatedLength(Pow2(14)) < 0
  {
    Pow2Value(14);
    Pow2Value(30);
    assert Pow2(15) == 0x8000;
    Pow2Monotone(15, maxOrder);
    Pow2Monotone(maxOrder, 30);
    var shifted := Pow2(maxOrder % 32);
    assert maxOrder % 32 == maxOrder;
    assert 0x8000 <= shifted <= 0x4000_0000;
    assert LongToInt(shifted) == shifted;
    assert Npix(0x8000) == 0x3_0000_0000;
    assert Npix(0x4000) == 0xC000_0000;
    Pow2IsPow2(15);
  }

  lemma {:induction false} Pow2Value(n: nat)
    requires n == 14 || n == 30
    ensures n == 14 ==> Pow2(n) == 0x4000
    ensures n == 30 ==> Pow2(n) == 0x4000_0000
  {
    Pow2Add(7, 7);
    Pow2Add(15, 15);
    assert Pow2(7) == 128;
    assert Pow2(15) == 0x8000;
  }

  // ---- Laws of the library functions ---------------------------------------

  /** nest2ring and ring2nest are inverse permutations of the pixel indices. */
  ghost predicate RenumberingLaw(g: Geometry, nside: int) {
    (forall p :: 0 <= p < Npix(nside) ==>
       0 <= g.nest2ring(nside, p) < Npix(nside) && g.ring2nest(nside, g.nest2ring(nside, p)) == p)
    && (forall p :: 0 <= p < Npix(nside) ==>
       0 <= g.ring2nest(nside, p) < Npix(nside) && g.nest2ring(nside, g.ring2nest(nside, p)) == p)
  }

  predicate InFace(t: Xyf, nside: int) {
    0 <= t.ix < nside && 0 <= t.iy < nside && 0 <= t.face < 12
  }

  /** xyf2pix sends the face coordinates of a map to one of its pixel indices. */
  ghost predicate XyfInRange(g: Geometry, nside: int, scheme: Scheme) {
    forall x, y, f :: 0 <= x < nside && 0 <= y < nside && 0 <= f < 12 ==>
      0 <= g.xyf2pix(nside, scheme, x, y, f) < Npix(nside)
  }

  /** xyf2pix and pix2xyf are inverse bijections between face coordinates and pixel indices. */
  ghost predicate FaceLaw(g: Geometry, nside: int, scheme: Scheme) {
    XyfInRange(g, nside, scheme)
    && (forall x, y, f :: 0 <= x < nside && 0 <= y < nside && 0 <= f < 12 ==>
       g.pix2xyf(nside, scheme, g.xyf2pix(nside, scheme, x, y, f)) == Xyf(x, y, f))
    && (forall p :: 0 <= p < Npix(nside) ==>
       InFace(g.pix2xyf(nside, scheme, p), nside)
       && g.xyf2pix(nside, scheme, g.pix2xyf(nside, scheme, p).ix, g.pix2xyf(nside, scheme, p).iy,
                    g.pix2xyf(nside, scheme, p).face) == p)
  }

  /** The renumbering swapScheme follows from a map in `scheme`: nest2ring for RING, ring2nest for NESTED. */
  function SwapStep(g: Geometry, nside: int, scheme: Scheme, i: int): int {
    if scheme == Ring then g.nest2ring(nside, i) else g.ring2nest(nside, i)
  }

  /**
   * The swap-cycle table is a cycle decomposition of SwapStep: `orbits[m]` is the
   * cycle that starts at `starts[m]`, `owner` and `pos` say which cycle holds an
   * index and where, and every index on no cycle is a fixed point.
   */
  ghost predicate CycleCertificate(g: Geometry, nside: int, scheme: Scheme, starts: seq<int>,
                                   orbits: seq<seq<int>>, owner: seq<int>, pos: seq<int>)
  {
    var n := Npix(nside);
    |orbits| == |starts| && |owner| == n && |pos| == n
    && (forall m :: 0 <= m < |orbits| ==> |orbits[m]| >= 1 && orbits[m][0] == starts[m])
    && (forall m, j :: 0 <= m < |orbits| && 0 <= j < |orbits[m]| ==>
          0 <= orbits[m][j] < n && owner[orbits[m][j]] == m && pos[orbits[m][j]] == j
          && SwapStep(g, nside, scheme, orbits[m][j]) == (if j + 1 < |orbits[m]| then orbits[m][j + 1] else orbits[m][0]))
    && (forall x :: 0 <= x < n && 0 <= owner[x] < |orbits| ==>
          0 <= pos[x] < |orbits[owner[x]]| && orbits[owner[x]][pos[x]] == x)
    && (forall x :: 0 <= x < n && !(0 <= owner[x] < |orbits|) ==> SwapStep(g, nside, scheme, x) == x)
  }

  /** Overwriting one element of a sequence trades that element for the new one in its multiset. */
  lemma MultisetUpdate<T>(s: seq<T>, i: int, v: T)
    requires 0 <= i < |s|
    ensures multiset(s[i := v]) == multiset(s) - multiset{s[i]} + multiset{v}
  {
    assert s == s[..i] + [s[i]] + s[i + 1..];
    assert s[i := v] == s[..i] + [v] + s[i + 1..];
  }

  /** One step of the walk: the buffered value stands in for the value being overwritten. */
  lemma MultisetTrade<T>(A: multiset<T>, M: multiset<T>, b: T, p: T, c: T)
    requires b in A && A + multiset{p} == M + multiset{b}
    ensures A - multiset{b} + multiset{c} + multiset{p} == M + multiset{c}
    ensures A - multiset{b} + multiset{p} == M
  {
    forall x
      ensures (A - multiset{b} + multiset{c} + multiset{p})[x] == (M + multiset{c})[x]
      ensures (A - multiset{b} + multiset{p})[x] == M[x]
    {
      assert (A + multiset{p})[x] == (M + multiset{b})[x];
    }
  }

  /** What the cycle decomposition says about the j-th pixel of cycle m. */
  lemma OnCycle(g: Geometry, nside: int, scheme: Scheme, starts: seq<int>,
                orbits: seq<seq<int>>, owner: seq<int>, pos: seq<int>, m: int, j: int)
    requires CycleCertificate(g, nside, scheme, starts, orbits, owner, pos)
    requires 0 <= m < |orbits| && 0 <= j < |orbits[m]|
    ensures 0 <= orbits[m][j] < Npix(nside) && owner[orbits[m][j]] == m && pos[orbits[m][j]] == j
    ensures orbits[m][0] == starts[m]
    ensures SwapStep(g, nside, scheme, orbits[m][j]) == (if j + 1 < |orbits[m]| then orbits[m][j + 1] else orbits[m][0])
  {
  }

  /** Under a cycle decomposition, the renumbering stays inside the pixel range. */
  lemma CycleStepInRange(g: Geometry, nside: int, scheme: Scheme, starts: seq<int>,
                         orbits: seq<seq<int>>, owner: seq<int>, pos: seq<int>)
    requires CycleCertificate(g, nside, scheme, starts, orbits, owner, pos)
    ensures forall x :: 0 <= x < Npix(nside) ==> 0 <= SwapStep(g, nside, scheme, x) < Npix(nside)
  {
    forall x | 0 <= x < Npix(nside)
      ensures 0 <= SwapStep(g, nside, scheme, x) < Npix(nside)
    {
      if 0 <= owner[x] < |orbits| {
        var o, p := owner[x], pos[x];
        assert orbits[o][p] == x;
        OnCycle(g, nside, scheme, starts, orbits, owner, pos, o, p);
        OnCycle(g, nside, scheme, starts, orbits, owner, pos, o, if p + 1 < |orbits[o]| then p + 1 else 0);
      }
    }
  }

  /**
   * The pixel values after swapScheme has walked the cycles before m and the first k
   * pixels of cycle m: those pixels hold the old value at their renumbered index, the
   * others still hold their own.
   */
  ghost predicate PartlySwapped(g: Geometry, nside: int, scheme: Scheme, cur: seq<JByte>, D: seq<JByte>,
                                owner: seq<int>, pos: seq<int>, m: int, k: int)
  {
    |cur| == |D| == |owner| == |pos|
    && forall x :: 0 <= x < |cur| ==>
         cur[x] == (if 0 <= owner[x] < m || (owner[x] == m && pos[x] < k)
                    then Cell(D, SwapStep(g, nside, scheme, x)) else D[x])
  }

  /**
   * The walk along cycle m has reached its k-th pixel: the pixels before it are
   * done, and the buffered first value stands in for the value at the k-th pixel.
   */
  ghost predicate Walking(g: Geometry, nside: int, scheme: Scheme, orbit: seq<int>, cur: seq<JByte>, D: seq<JByte>,
                          owner: seq<int>, pos: seq<int>, m: int, k: int, pixbuf: JByte)
  {
    0 <= k < |orbit| && 0 <= orbit[k] < |cur| && |orbit| >= 1 && 0 <= orbit[0] < |D|
    && PartlySwapped(g, nside, scheme, cur, D, owner, pos, m, k)
    && pixbuf == D[orbit[0]]
    && multiset(cur) + multiset{pixbuf} == multiset(D) + multiset{cur[orbit[k]]}
  }

  /** The walk starts at the first pixel of cycle m, with that pixel's value in the buffer. */
  lemma StartCycle(g: Geometry, nside: int, scheme: Scheme, starts: seq<int>, orbits: seq<seq<int>>,
                   owner: seq<int>, pos: seq<int>, cur: seq<JByte>, D: seq<JByte>, m: int)
    requires CycleCertificate(g, nside, scheme, starts, orbits, owner, pos)
    requires 0 <= m < |orbits| && |cur| == Npix(nside)
    requires PartlySwapped(g, nside, scheme, cur, D, owner, pos, m, 0) && multiset(cur) == multiset(D)
    ensures 0 <= starts[m] < |cur| && orbits[m][0] == starts[m]
    ensures Walking(g, nside, scheme, orbits[m], cur, D, owner, pos, m, 0, cur[starts[m]])
    ensures SwapStep(g, nside, scheme, starts[m]) == (if 1 < |orbits[m]| then orbits[m][1] else starts[m])
  {
    OnCycle(g, nside, scheme, starts, orbits, owner, pos, m, 0);
  }

  /** Moving the successor's value into the k-th pixel of cycle m advances the walk by one pixel. */
  lemma RotateStep(g: Geometry, nside: int, scheme: Scheme, starts: seq<int>, orbits: seq<seq<int>>,
                   owner: seq<int>, pos: seq<int>, cur: seq<JByte>, D: seq<JByte>, m: int, k: int, pixbuf: JByte)
    requires CycleCertificate(g, nside, scheme, starts, orbits, owner, pos)
    requires 0 <= m < |orbits| && |cur| == Npix(nside)
    requires Walking(g, nside, scheme, orbits[m], cur, D, owner, pos, m, k, pixbuf)
    requires SwapStep(g, nside, scheme, orbits[m][k]) != starts[m]
    ensures k + 1 < |orbits[m]| && SwapStep(g, nside, scheme, orbits[m][k]) == orbits[m][k + 1]
    ensures 0 <= orbits[m][k + 1] < |cur|
    ensures Walking(g, nside, scheme, orbits[m], cur[orbits[m][k] := cur[orbits[m][k + 1]]], D, owner, pos, m, k + 1, pixbuf)
    ensures SwapStep(g, nside, scheme, orbits[m][k + 1])
              == (if k + 2 < |orbits[m]| then orbits[m][k + 2] else starts[m])
  {
    OnCycle(g, nside, scheme, starts, orbits, owner, pos, m, k);
    OnCycle(g, nside, scheme, starts, orbits, owner, pos, m, k + 1);
    var i, j := orbits[m][k], orbits[m][k + 1];
    var next := cur[i := cur[j]];
    StepSwapped(g, nside, scheme, cur, D, owner, pos, m, k, i, j, orbits[m]);
    MultisetUpdate(cur, i, cur[j]);
    assert next[j] == cur[j];
    MultisetTrade(multiset(cur), multiset(D), cur[i], pixbuf, cur[j]);
  }

  /** Pixel i (position k on cycle m) takes the value of its successor j, which is not yet overwritten. */
  lemma StepSwapped(g: Geometry, nside: int, scheme: Scheme, cur: seq<JByte>, D: seq<JByte>,
                    owner: seq<int>, pos: seq<int>, m: int, k: int, i: int, j: int, orbit: seq<int>)
    requires PartlySwapped(g, nside, scheme, cur, D, owner, pos, m, k)
    requires 0 <= k < |orbit| && orbit[k] == i
    requires forall x :: 0 <= x < |cur| && owner[x] == m ==> 0 <= pos[x] < |orbit| && orbit[pos[x]] == x
    requires 0 <= i < |cur| && 0 <= j < |cur| && owner[i] == m && pos[i] == k && owner[j] == m && pos[j] == k + 1
    requires SwapStep(g, nside, scheme, i) == j
    ensures PartlySwapped(g, nside, scheme, cur[i := cur[j]], D, owner, pos, m, k + 1)
  {
    assert cur[j] == D[j];
    var next := cur[i := cur[j]];
    forall x | 0 <= x < |next|
      ensures next[x] == (if 0 <= owner[x] < m || (owner[x] == m && pos[x] < k + 1)
                          then Cell(D, SwapStep(g, nside, scheme, x)) else D[x])
    {
      if x == i {
        assert Cell(D, SwapStep(g, nside, scheme, x)) == D[j];
      }
    }
  }

  /** When the renumbering leads back to the start, the buffered value closes cycle m. */
  lemma CloseCycle(g: Geometry, nside: int, scheme: Scheme, starts: seq<int>, orbits: seq<seq<int>>,
                   owner: seq<int>, pos: seq<int>, cur: seq<JByte>, D: seq<JByte>, m: int, k: int, pixbuf: JByte)
    requires CycleCertificate(g, nside, scheme, starts, orbits, owner, pos)
    requires 0 <= m < |orbits| && |cur| == Npix(nside)
    requires Walking(g, nside, scheme, orbits[m], cur, D, owner, pos, m, k, pixbuf)
    requires SwapStep(g, nside, scheme, orbits[m][k]) == starts[m]
    ensures PartlySwapped(g, nside, scheme, cur[orbits[m][k] := pixbuf], D, owner, pos, m + 1, 0)
    ensures multiset(cur[orbits[m][k] := pixbuf]) == multiset(D)
  {
    OnCycle(g, nside, scheme, starts, orbits, owner, pos, m, k);
    OnCycle(g, nside, scheme, starts, orbits, owner, pos, m, 0);
    if k + 1 < |orbits[m]| {
      OnCycle(g, nside, scheme, starts, orbits, owner, pos, m, k + 1);
    }
    assert k == |orbits[m]| - 1;
    var next := cur[orbits[m][k] := pixbuf];
    forall x | 0 <= x < |next|
      ensures next[x] == (if 0 <= owner[x] < m + 1 then Cell(D, SwapStep(g, nside, scheme, x)) else D[x])
    {
      if owner[x] == m {
        assert orbits[m][pos[x]] == x;
      }
    }
    MultisetUpdate(cur, orbits[m][k], pixbuf);
    MultisetTrade(multiset(cur), multiset(D), cur[orbits[m][k]], pixbuf, pixbuf);
  }

  /** Once every cycle is walked, each pixel holds the old value at its renumbered index. */
  lemma AllSwapped(g: Geometry, nside: int, scheme: Scheme, starts: seq<int>, orbits: seq<seq<int>>,
                   owner: seq<int>, pos: seq<int>, cur: seq<JByte>, D: seq<JByte>)
    requires CycleCertificate(g, nside, scheme, starts, orbits, owner, pos)
    requires PartlySwapped(g, nside, scheme, cur, D, owner, pos, |orbits|, 0)
    ensures forall x :: 0 <= x < |cur| ==>
              0 <= SwapStep(g, nside, scheme, x) < |D| && cur[x] == D[SwapStep(g, nside, scheme, x)]
  {
    CycleStepInRange(g, nside, scheme, starts, orbits, owner, pos);
  }

  /** Renumbering from one scheme and then from the other leads back to the same pixel. */
  lemma SwapStepInverse(g: Geometry, nside: int, s: Scheme)
    requires RenumberingLaw(g, nside)
    ensures forall p :: 0 <= p < Npix(nside) ==>
              0 <= SwapStep(g, nside, s, p) < Npix(nside) && SwapStep(g, nside, Other(s), SwapStep(g, nside, s, p)) == p
  {
  }

  /**
   * Converting a map to the other scheme and back restores every pixel: the value
   * at i after both conversions is the original value at i.
   */
  lemma SwapTwiceRestores(g: Geometry, nside: int, s: Scheme, D: seq<JByte>, E: seq<JByte>, F: seq<JByte>)
    requires RenumberingLaw(g, nside) && |D| == |E| == |F| == Npix(nside)
    requires forall i :: 0 <= i < |E| ==> 0 <= SwapStep(g, nside, s, i) < |D| && E[i] == D[SwapStep(g, nside, s, i)]
    requires forall i :: 0 <= i < |F| ==>
               0 <= SwapStep(g, nside, Other(s), i) < |E| && F[i] == E[SwapStep(g, nside, Other(s), i)]
    ensures F == D
  {
    SwapStepInverse(g, nside, Other(s));
    assert Other(Other(s)) == s;
    forall i | 0 <= i < |F|
      ensures F[i] == D[i]
    {
      var p := SwapStep(g, nside, Other(s), i);
      assert F[i] == E[p] == D[SwapStep(g, nside, s, p)];
    }
  }

  // ---- Block arithmetic ------------------------------------------------------

  lemma DivBlock(i: int, fact: int, x: int)
    requires fact >= 1 && fact * x <= i < fact * (x + 1)
    ensures i / fact == x
  {
    var q, r := i / fact, i % fact;
    assert i == fact * q + r && 0 <= r < fact;
    if q < x {
      assert fact * q + r < fact * q + fact == fact * (q + 1);
      MulMonotone(fact, q + 1, x);
    } else if q > x {
      MulMonotone(fact, x + 1, q);
    }
  }

  /** A coordinate below fact·onside has its block coordinate below onside, and lies in that block. */
  lemma BlockOf(i: int, fact: int, onside: int)
    requires fact >= 1 && 0 <= i < fact * onside
    ensures 0 <= i / fact < onside
    ensures fact * (i / fact) <= i < fact * (i / fact + 1)
  {
    var q := i / fact;
    assert i == fact * q + i % fact;
    if q >= onside {
      MulMonotone(fact, onside, q);
    }
  }

  /** Coordinates inside the block of a coarse pixel of a map `fact` times coarser stay on the fine face. */
  lemma InsideFineFace(x: int, d: int, fact: int, onside: int)
    requires fact >= 1 && 0 <= x < onside && 0 <= d < fact
    ensures 0 <= fact * x + d < fact * onside
  {
    MulMonotone(fact, x + 1, onside);
  }

  /** The block of coarse coordinate x spans [fact·x, fact·(x+1)) inside the fine face. */
  lemma BlockRange(x: int, fact: int, nside: int, onside: int)
    requires fact >= 1 && 0 <= x < nside && onside == nside * fact
    ensures 0 <= fact * x <= fact * (x + 1) <= onside
  {
    MulMonotone(fact, 0, x);
    MulMonotone(fact, x + 1, nside);
  }

  // ---- Upgrade and degrade specifications -----------------------------------

  /** The pixel of the coarse map (`onside`, `oscheme`) whose fact×fact block holds pixel q of the fine map. */
  function Parent(g: Geometry, nside: int, scheme: Scheme, onside: int, oscheme: Scheme, fact: int, q: int): int
    requires fact >= 1
  {
    var t := g.pix2xyf(nside, scheme, q);
    g.xyf2pix(onside, oscheme, t.ix / fact, t.iy / fact, t.face)
  }

  /** Under the face laws, a fine pixel's parent is a coarse pixel whose block holds it. */
  lemma ParentBlock(g: Geometry, nside: int, scheme: Scheme, onside: int, oscheme: Scheme, fact: int, q: int)
    requires fact >= 1 && onside >= 1 && nside == onside * fact
    requires FaceLaw(g, nside, scheme) && FaceLaw(g, onside, oscheme)
    requires 0 <= q < Npix(nside)
    ensures var p := Parent(g, nside, scheme, onside, oscheme, fact, q);
            var t := g.pix2xyf(nside, scheme, q);
            var u := g.pix2xyf(onside, oscheme, p);
            0 <= p < Npix(onside) && u.face == t.face
            && fact * u.ix <= t.ix < fact * (u.ix + 1) && fact * u.iy <= t.iy < fact * (u.iy + 1)
  {
    var t := g.pix2xyf(nside, scheme, q);
    assert InFace(t, nside);
    BlockOf(t.ix, fact, onside);
    BlockOf(t.iy, fact, onside);
  }

  /** The value of a subpixel of the fine map, read defensively. */
  function Cell(od: seq<JByte>, p: int): int {
    if 0 <= p < |od| then od[p] else 0
  }

  /** The subpixels counted for a degraded pixel and the sum of their values. */
  datatype Tally = Tally(hits: int, sum: int)

  /** The tally of the subpixels (i, j) with iFrom <= i < iTo of row j that `approxZero` does not call zero. */
  function RowStats(g: Geometry, od: seq<JByte>, onside: int, oscheme: Scheme, f: int, j: int, iFrom: int, iTo: int): Tally
    decreases iTo - iFrom
  {
    if iTo <= iFrom then Tally(0, 0)
    else
      var s := RowStats(g, od, onside, oscheme, f, j, iFrom, iTo - 1);
      var v := Cell(od, g.xyf2pix(onside, oscheme, iTo - 1, j, f));
      if !g.approxZero(v) then Tally(s.hits + 1, s.sum + v) else s
  }

  /** The tally of the rows jFrom <= j < jTo of the block columns [iFrom, iTo). */
  function BlockStats(g: Geometry, od: seq<JByte>, onside: int, oscheme: Scheme, f: int,
                      iFrom: int, iTo: int, jFrom: int, jTo: int): Tally
    decreases jTo - jFrom
  {
    if jTo <= jFrom then Tally(0, 0)
    else
      var s := BlockStats(g, od, onside, oscheme, f, iFrom, iTo, jFrom, jTo - 1);
      var r := RowStats(g, od, onside, oscheme, f, jTo - 1, iFrom, iTo);
      Tally(s.hits + r.hits, s.sum + r.sum)
  }

  /** The statistics of the fact×fact block of the fine map under coarse pixel m. */
  function Stats(g: Geometry, od: seq<JByte>, onside: int, oscheme: Scheme, nside: int, scheme: Scheme, fact: int, m: int): Tally {
    var t := g.pix2xyf(nside, scheme, m);
    BlockStats(g, od, onside, oscheme, t.face, fact * t.ix, fact * (t.ix + 1), fact * t.iy, fact * (t.iy + 1))
  }

  /** A pixel with fewer than minhits hits is blanked to 0; otherwise it takes the mean, cast to int and then to byte. */
  function Degraded(stats: Tally, minhits: int): JByte
    requires minhits >= 1
  {
    if stats.hits < minhits then 0 else ToByte(ToInt(stats.sum as real / stats.hits as real))
  }

  lemma {:induction false} RowStatsBounds(g: Geometry, od: seq<JByte>, onside: int, oscheme: Scheme, f: int, j: int, iFrom: int, iTo: int)
    decreases iTo - iFrom
    ensures var s := RowStats(g, od, onside, oscheme, f, j, iFrom, iTo);
            0 <= s.hits && (iFrom <= iTo ==> s.hits <= iTo - iFrom) && -128 * s.hits <= s.sum <= 127 * s.hits
  {
    if iTo > iFrom {
      RowStatsBounds(g, od, onside, oscheme, f, j, iFrom, iTo - 1);
    }
  }

  lemma {:induction false} BlockStatsBounds(g: Geometry, od: seq<JByte>, onside: int, oscheme: Scheme, f: int,
                                            iFrom: int, iTo: int, jFrom: int, jTo: int)
    decreases jTo - jFrom
    requires iFrom <= iTo
    ensures var s := BlockStats(g, od, onside, oscheme, f, iFrom, iTo, jFrom, jTo);
            0 <= s.hits && (jFrom <= jTo ==> s.hits <= (iTo - iFrom) * (jTo - jFrom)) && -128 * s.hits <= s.sum <= 127 * s.hits
  {
    if jTo > jFrom {
      BlockStatsBounds(g, od, onside, oscheme, f, iFrom, iTo, jFrom, jTo - 1);
      RowStatsBounds(g, od, onside, oscheme, f, jTo - 1, iFrom, iTo);
      assert (iTo - iFrom) * (jTo - 1 - jFrom) + (iTo - iFrom) == (iTo - iFrom) * (jTo - jFrom);
    }
  }

  lemma RealDivBetween(s: real, h: real, lo: real, hi: real)
    requires h > 0.0 && lo * h <= s <= hi * h
    ensures lo <= s / h <= hi
  {
    var q := s / h;
    assert q * h == s;
    assert (q - lo) * h == s - lo * h >= 0.0;
    assert (hi - q) * h == hi * h - s >= 0.0;
  }

  /**
   * A degraded pixel that is not blanked is the mean of the counted subpixels
   * truncated toward zero; that mean is a byte, so the cast to byte never wraps.
   */
  lemma DegradedIsTruncatedMean(stats: Tally, minhits: int)
    requires minhits >= 1 && stats.hits >= minhits && -128 * stats.hits <= stats.sum <= 127 * stats.hits
    ensures Degraded(stats, minhits) == Trunc(stats.sum as real / stats.hits as real)
    ensures -128 <= Degraded(stats, minhits) <= 127
  {
    var h, s := stats.hits as real, stats.sum as real;
    var mean := s / h;
    RealDivBetween(s, h, -128.0, 127.0);
    TruncMonotone(-128.0, mean);
    TruncMonotone(mean, 127.0);
  }

  /** In a row, all cells are counted exactly when the hit count equals the row length. */
  lemma {:induction false} RowStatsFull(g: Geometry, od: seq<JByte>, onside: int, oscheme: Scheme, f: int, j: int, iFrom: int, iTo: int)
    decreases iTo - iFrom
    requires iFrom <= iTo && RowStats(g, od, onside, oscheme, f, j, iFrom, iTo).hits == iTo - iFrom
    ensures forall i :: iFrom <= i < iTo ==> !g.approxZero(Cell(od, g.xyf2pix(onside, oscheme, i, j, f)))
  {
    if iTo > iFrom {
      RowStatsBounds(g, od, onside, oscheme, f, j, iFrom, iTo - 1);
      RowStatsFull(g, od, onside, oscheme, f, j, iFrom, iTo - 1);
    }
  }

  /** With the pessimistic threshold, a pixel that is not blanked had every subpixel of its block counted. */
  lemma {:induction false} BlockStatsFull(g: Geometry, od: seq<JByte>, onside: int, oscheme: Scheme, f: int,
                                          iFrom: int, iTo: int, jFrom: int, jTo: int)
    decreases jTo - jFrom
    requires iFrom <= iTo && jFrom <= jTo
    requires BlockStats(g, od, onside, oscheme, f, iFrom, iTo, jFrom, jTo).hits >= (iTo - iFrom) * (jTo - jFrom)
    ensures forall i, j :: iFrom <= i < iTo && jFrom <= j < jTo ==> !g.approxZero(Cell(od, g.xyf2pix(onside, oscheme, i, j, f)))
  {
    if jTo > jFrom {
      var w, h := iTo - iFrom, jTo - 1 - jFrom;
      var s := BlockStats(g, od, onside, oscheme, f, iFrom, iTo, jFrom, jTo - 1);
      var r := RowStats(g, od, onside, oscheme, f, jTo - 1, iFrom, iTo);
      BlockStatsBounds(g, od, onside, oscheme, f, iFrom, iTo, jFrom, jTo - 1);
      RowStatsBounds(g, od, onside, oscheme, f, jTo - 1, iFrom, iTo);
      FullParts(s.hits, r.hits, w, h);
      BlockStatsFull(g, od, onside, oscheme, f, iFrom, iTo, jFrom, jTo - 1);
      RowStatsFull(g, od, onside, oscheme, f, jTo - 1, iFrom, iTo);
    }
  }

  /** Two counts bounded by w·h and w that together reach w·(h + 1) both reach their bounds. */
  lemma FullParts(blockHits: int, rowHits: int, w: int, h: int)
    requires blockHits <= w * h && rowHits <= w && blockHits + rowHits >= w * (h + 1)
    ensures blockHits == w * h && rowHits == w
  {
    assert w * (h + 1) == w * h + w;
  }

  /** `new byte[(int) getNpix()]` under the corrected check: one zero byte per pixel. */
  method Allocate(nside: int) returns (a: array<JByte>)
    requires nside >= 1 && Npix(nside) <= INT_MAX
    ensures fresh(a) && a.Length == Npix(nside)
    ensures forall i :: 0 <= i < a.Length ==> a[i] == 0
  {
    var len := AllocatedLength(nside);
    AdmissibleAllocatesNpix(nside);
    a := new JByte[len](_ => 0);
  }

  /** Face coordinates u lie on face f inside the rectangle [iFrom, iTo) × [jFrom, jTo). */
  predicate InRect(u: Xyf, f: int, iFrom: int, iTo: int, jFrom: int, jTo: int) {
    u.face == f && iFrom <= u.ix < iTo && jFrom <= u.iy < jTo
  }

  /** The hits a degraded pixel needs: every subpixel when pessimistic, one otherwise. */
  function MinHits(pessimistic: bool, fact: int): int {
    if pessimistic then fact * fact else 1
  }

  /** Face coordinates u lie in the fact×fact block of the coarse pixel t. */
  predicate InBlock(u: Xyf, t: Xyf, fact: int) {
    InRect(u, t.face, fact * t.ix, fact * (t.ix + 1), fact * t.iy, fact * (t.iy + 1))
  }

  /** A fine pixel lies in the block of coarse pixel m exactly when m is its parent. */
  lemma BlockIffParent(g: Geometry, nside: int, scheme: Scheme, onside: int, oscheme: Scheme, fact: int, m: int, q: int)
    requires fact >= 1 && onside >= 1 && nside == onside * fact
    requires FaceLaw(g, nside, scheme) && FaceLaw(g, onside, oscheme)
    requires 0 <= m < Npix(onside) && 0 <= q < Npix(nside)
    ensures InBlock(g.pix2xyf(nside, scheme, q), g.pix2xyf(onside, oscheme, m), fact)
            <==> Parent(g, nside, scheme, onside, oscheme, fact, q) == m
  {
    var u, t := g.pix2xyf(nside, scheme, q), g.pix2xyf(onside, oscheme, m);
    ParentBlock(g, nside, scheme, onside, oscheme, fact, q);
    if InBlock(u, t, fact) {
      DivBlock(u.ix, fact, t.ix);
      DivBlock(u.iy, fact, t.iy);
    }
  }

  /** The inner loop of importDegrade over one row: counts and sums the subpixels approx does not call zero. */
  method SumRow(g: Geometry, od: array<JByte>, onside: int, oscheme: Scheme, f: int, j: int, iFrom: int, iTo: int)
    returns (hits: int, sum: int)
    requires XyfInRange(g, onside, oscheme) && od.Length == Npix(onside)
    requires 0 <= f < 12 && 0 <= j < onside && 0 <= iFrom <= iTo <= onside
    ensures Tally(hits, sum) == RowStats(g, od[..], onside, oscheme, f, j, iFrom, iTo)
  {
    hits, sum := 0, 0;
    for i := iFrom to iTo
      invariant Tally(hits, sum) == RowStats(g, od[..], onside, oscheme, f, j, iFrom, i)
    {
      var opix := g.xyf2pix(onside, oscheme, i, j, f);
      if !g.approxZero(od[opix]) {
        hits := hits + 1;
        sum := sum + od[opix];
      }
    }
  }

  /** The two inner loops of importDegrade: counts and sums over the rows of one block. */
  method SumBlock(g: Geometry, od: array<JByte>, onside: int, oscheme: Scheme, f: int,
                  iFrom: int, iTo: int, jFrom: int, jTo: int)
    returns (hits: int, sum: int)
    requires XyfInRange(g, onside, oscheme) && od.Length == Npix(onside)
    requires 0 <= f < 12 && 0 <= iFrom <= iTo <= onside && 0 <= jFrom <= jTo <= onside
    ensures Tally(hits, sum) == BlockStats(g, od[..], onside, oscheme, f, iFrom, iTo, jFrom, jTo)
  {
    hits, sum := 0, 0;
    for j := jFrom to jTo
      invariant Tally(hits, sum) == BlockStats(g, od[..], onside, oscheme, f, iFrom, iTo, jFrom, j)
    {
      var rowHits, rowSum := SumRow(g, od, onside, oscheme, f, j, iFrom, iTo);
      hits, sum := hits + rowHits, sum + rowSum;
    }
  }

  /** The body of importDegrade's pixel loop: the value pixel m of the coarse map receives. */
  method DegradePixel(g: Geometry, od: array<JByte>, onside: int, oscheme: Scheme, nside: int, scheme: Scheme,
                      fact: int, minhits: int, m: int)
    returns (v: JByte)
    requires XyfInRange(g, onside, oscheme) && FaceLaw(g, nside, scheme) && od.Length == Npix(onside)
    requires nside >= 1 && fact >= 1 && onside == nside * fact && minhits >= 1 && 0 <= m < Npix(nside)
    ensures v == Degraded(Stats(g, od[..], onside, oscheme, nside, scheme, fact, m), minhits)
  {
    var t := g.pix2xyf(nside, scheme, m);
    var x, y, f := t.ix, t.iy, t.face;
    assert InFace(t, nside);
    BlockRange(x, fact, nside, onside);
    BlockRange(y, fact, nside, onside);
    var hits, sum := SumBlock(g, od, onside, oscheme, f, fact * x, fact * (x + 1), fact * y, fact * (y + 1));
    v := if hits < minhits then 0 else ToByte(ToInt(sum as real / hits as real));
  }

  /** Every pixel of the fine map `cur` whose parent is below m holds its parent's value in `od`. */
  ghost predicate UpgradedBelow(g: Geometry, nside: int, scheme: Scheme, onside: int, oscheme: Scheme, fact: int,
                                cur: seq<JByte>, od: seq<JByte>, m: int)
    requires fact >= 1
  {
    forall q :: 0 <= q < |cur| && 0 <= Parent(g, nside, scheme, onside, oscheme, fact, q) < m ==>
      Parent(g, nside, scheme, onside, oscheme, fact, q) < |od|
      && cur[q] == od[Parent(g, nside, scheme, onside, oscheme, fact, q)]
  }

  /** Filling the block of coarse pixel m with its value extends the upgraded prefix by m. */
  lemma UpgradeStep(g: Geometry, nside: int, scheme: Scheme, onside: int, oscheme: Scheme, fact: int,
                    cur: seq<JByte>, next: seq<JByte>, od: seq<JByte>, m: int, t: Xyf, val: JByte)
    requires fact >= 1 && onside >= 1 && nside == onside * fact
    requires FaceLaw(g, nside, scheme) && FaceLaw(g, onside, oscheme)
    requires |cur| == |next| == Npix(nside) && |od| == Npix(onside) && 0 <= m < |od|
    requires t == g.pix2xyf(onside, oscheme, m) && val == od[m]
    requires UpgradedBelow(g, nside, scheme, onside, oscheme, fact, cur, od, m)
    requires forall q :: 0 <= q < |next| ==>
               next[q] == (if InRect(g.pix2xyf(nside, scheme, q), t.face, fact * t.ix, fact * (t.ix + 1), fact * t.iy, fact * (t.iy + 1))
                           then val else cur[q])
    ensures UpgradedBelow(g, nside, scheme, onside, oscheme, fact, next, od, m + 1)
  {
    forall q | 0 <= q < |next| && 0 <= Parent(g, nside, scheme, onside, oscheme, fact, q) < m + 1
      ensures Parent(g, nside, scheme, onside, oscheme, fact, q) < |od|
              && next[q] == od[Parent(g, nside, scheme, onside, oscheme, fact, q)]
    {
      BlockIffParent(g, nside, scheme, onside, oscheme, fact, m, q);
    }
  }

  /** The first m pixels of the coarse map `cur` hold their degraded values. */
  ghost predicate DegradedBelow(g: Geometry, od: seq<JByte>, onside: int, oscheme: Scheme, nside: int, scheme: Scheme,
                                fact: int, minhits: int, cur: seq<JByte>, m: int)
    requires minhits >= 1
  {
    forall k :: 0 <= k < m && k < |cur| ==>
      cur[k] == Degraded(Stats(g, od, onside, oscheme, nside, scheme, fact, k), minhits)
  }

  /** Storing pixel m's degraded value extends the degraded prefix by m. */
  lemma DegradeStep(g: Geometry, od: seq<JByte>, onside: int, oscheme: Scheme, nside: int, scheme: Scheme,
                    fact: int, minhits: int, cur: seq<JByte>, next: seq<JByte>, m: int, v: JByte)
    requires minhits >= 1 && 0 <= m < |cur|
    requires DegradedBelow(g, od, onside, oscheme, nside, scheme, fact, minhits, cur, m)
    requires v == Degraded(Stats(g, od, onside, oscheme, nside, scheme, fact, m), minhits) && next == cur[m := v]
    ensures DegradedBelow(g, od, onside, oscheme, nside, scheme, fact, minhits, next, m + 1)
  {
  }

  /** Once every coarse pixel has filled its block, each fine pixel holds its parent's value. */
  lemma UpgradedAll(g: Geometry, nside: int, scheme: Scheme, onside: int, oscheme: Scheme, fact: int,
                    cur: seq<JByte>, od: seq<JByte>)
    requires fact >= 1 && onside >= 1 && nside == onside * fact
    requires FaceLaw(g, nside, scheme) && FaceLaw(g, onside, oscheme)
    requires |cur| == Npix(nside) && |od| == Npix(onside)
    requires UpgradedBelow(g, nside, scheme, onside, oscheme, fact, cur, od, |od|)
    ensures forall q :: 0 <= q < |cur| ==>
              0 <= Parent(g, nside, scheme, onside, oscheme, fact, q) < |od|
              && cur[q] == od[Parent(g, nside, scheme, onside, oscheme, fact, q)]
  {
    forall q | 0 <= q < |cur|
      ensures 0 <= Parent(g, nside, scheme, onside, oscheme, fact, q) < |od|
    {
      ParentBlock(g, nside, scheme, onside, oscheme, fact, q);
    }
  }

  /** The innermost loop of importUpgrade: one row of a block of subpixels takes the value. */
  method FillRow(g: Geometry, target: array<JByte>, nside: int, scheme: Scheme, f: int, j: int,
                 iFrom: int, iTo: int, val: JByte)
    requires FaceLaw(g, nside, scheme) && target.Length == Npix(nside)
    requires 0 <= f < 12 && 0 <= j < nside && 0 <= iFrom <= iTo <= nside
    modifies target
    ensures forall q :: 0 <= q < target.Length ==>
              target[q] == (if InRect(g.pix2xyf(nside, scheme, q), f, iFrom, iTo, j, j + 1) then val else old(target[q]))
  {
    for i := iFrom to iTo
      invariant forall q :: 0 <= q < target.Length ==>
                  target[q] == (if InRect(g.pix2xyf(nside, scheme, q), f, iFrom, i, j, j + 1) then val else old(target[q]))
    {
      var mypix := g.xyf2pix(nside, scheme, i, j, f);
      target[mypix] := val;
    }
  }

  /** The two inner loops of importUpgrade: a rectangle of subpixels on one face takes the value. */
  method FillRect(g: Geometry, target: array<JByte>, nside: int, scheme: Scheme, f: int,
                  iFrom: int, iTo: int, jFrom: int, jTo: int, val: JByte)
    requires FaceLaw(g, nside, scheme) && target.Length == Npix(nside)
    requires 0 <= f < 12 && 0 <= iFrom <= iTo <= nside && 0 <= jFrom <= jTo <= nside
    modifies target
    ensures forall q :: 0 <= q < target.Length ==>
              target[q] == (if InRect(g.pix2xyf(nside, scheme, q), f, iFrom, iTo, jFrom, jTo) then val else old(target[q]))
  {
    for j := jFrom to jTo
      invariant forall q :: 0 <= q < target.Length ==>
                  target[q] == (if InRect(g.pix2xyf(nside, scheme, q), f, iFrom, iTo, jFrom, j) then val else old(target[q]))
    {
      FillRow(g, target, nside, scheme, f, j, iFrom, iTo, val);
    }
  }

  /** The pixel loop of importUpgrade: every pixel of the coarse map fills its block of the fine map. */
  method UpgradeInto(g: Geometry, od: array<JByte>, onside: int, oscheme: Scheme,
                     target: array<JByte>, nside: int, scheme: Scheme, fact: int)
    requires FaceLaw(g, onside, oscheme) && FaceLaw(g, nside, scheme) && od != target
    requires onside >= 1 && fact >= 1 && nside == onside * fact
    requires od.Length == Npix(onside) && target.Length == Npix(nside)
    modifies target
    ensures forall q :: 0 <= q < target.Length ==>
              0 <= Parent(g, nside, scheme, onside, oscheme, fact, q) < od.Length
              && target[q] == od[Parent(g, nside, scheme, onside, oscheme, fact, q)]
  {
    ghost var ods := od[..];
    for m := 0 to od.Length
      invariant UpgradedBelow(g, nside, scheme, onside, oscheme, fact, target[..], ods, m)
    {
      var t := g.pix2xyf(onside, oscheme, m);
      assert InFace(t, onside);
      BlockRange(t.ix, fact, onside, nside);
      BlockRange(t.iy, fact, onside, nside);
      ghost var before := target[..];
      var val := od[m];
      FillRect(g, target, nside, scheme, t.face, fact * t.ix, fact * (t.ix + 1), fact * t.iy, fact * (t.iy + 1), val);
      UpgradeStep(g, nside, scheme, onside, oscheme, fact, before, target[..], ods, m, t, val);
    }
    UpgradedAll(g, nside, scheme, onside, oscheme, fact, target[..], ods);
  }

  // ---- The map -----------------------------------------------------------------

  class HealpixMapByte {
    var nside: int
    var scheme: Scheme
    var data: array<JByte>
    /** JHIPS.ORDER, the finest order the maps accept; JHIPS.java of this generation is not part of this model. */
    const maxOrder: nat

    ghost predicate Valid()
      reads this
    {
      LibraryNside(nside, scheme) && data.Length == Npix(nside)
    }

    /** `new HealpixMapByte()`: nside 1, NESTED, all pixels 0. */
    constructor Default(maxOrder: nat)
      requires Admissible(1, maxOrder)
      ensures Valid() && fresh(data) && nside == 1 && scheme == Nested && this.maxOrder == maxOrder
      ensures forall i :: 0 <= i < data.Length ==> data[i] == 0
    {
      this.maxOrder := maxOrder;
      var pixels := Allocate(1);
      nside, scheme, data := 1, Nested, pixels;
    }

    /** `new HealpixMapByte(nside, scheme)`: a fresh map with every pixel 0. */
    constructor (nside_in: int, scheme_in: Scheme, maxOrder: nat)
      requires LibraryNside(nside_in, scheme_in) && Admissible(nside_in, maxOrder)
      ensures Valid() && fresh(data) && nside == nside_in && scheme == scheme_in && this.maxOrder == maxOrder
      ensures forall i :: 0 <= i < data.Length ==> data[i] == 0
    {
      this.maxOrder := maxOrder;
      var pixels := Allocate(nside_in);
      nside, scheme, data := nside_in, scheme_in, pixels;
    }

    /** `new HealpixMapByte(data, scheme)`: the map adopts the caller's array, whose length fixes the nside. */
    constructor FromData(data_in: array<JByte>, scheme_in: Scheme, maxOrder: nat)
      requires Npix(Npix2Nside(data_in.Length)) == data_in.Length
      requires LibraryNside(Npix2Nside(data_in.Length), scheme_in)
      requires Admissible(Npix2Nside(data_in.Length), maxOrder)
      ensures Valid() && data == data_in && scheme == scheme_in && this.maxOrder == maxOrder
      ensures nside == Npix2Nside(data_in.Length)
    {
      this.maxOrder := maxOrder;
      nside, scheme := Npix2Nside(data_in.Length), scheme_in;
      data := data_in;
    }

    /**
     * setNside: a different resolution gets a fresh all-zero array of the new size; the
     * same one changes nothing. When the new nside fails the check, the exception leaves
     * the new nside in place with the old array (`ok` is false and the map is no longer valid).
     */
    method SetNside(nside_in: int) returns (ok: bool)
      requires Valid() && LibraryNside(nside_in, scheme)
      modifies this
      ensures scheme == old(scheme) && nside == nside_in
      ensures ok == (nside_in == old(nside) || Admissible(nside_in, maxOrder))
      ensures nside_in == old(nside) ==> data == old(data)
      ensures nside_in != old(nside) && ok ==> Valid() && fresh(data) && forall i :: 0 <= i < data.Length ==> data[i] == 0
      ensures !ok ==> data == old(data)
    {
      ok := true;
      if nside_in != nside {
        nside := nside_in;
        if !Admissible(nside, maxOrder) {
          ok := false;
          return;
        }
        data := Allocate(nside);
      }
    }

    /** setNsideAndScheme: always a fresh all-zero array; on a failed check the new nside and scheme stay with the old array. */
    method SetNsideAndScheme(nside_in: int, scheme_in: Scheme) returns (ok: bool)
      requires LibraryNside(nside_in, scheme_in)
      modifies this
      ensures scheme == scheme_in && nside == nside_in
      ensures ok == Admissible(nside_in, maxOrder)
      ensures ok ==> Valid() && fresh(data) && forall i :: 0 <= i < data.Length ==> data[i] == 0
      ensures !ok ==> data == old(data)
    {
      nside, scheme := nside_in, scheme_in;
      if !Admissible(nside, maxOrder) {
        return false;
      }
      data := Allocate(nside);
      ok := true;
    }

    /** setDataAndScheme: adopts the caller's array; no resolution check is made here. */
    method SetDataAndScheme(data_in: array<JByte>, scheme_in: Scheme)
      requires Npix(Npix2Nside(data_in.Length)) == data_in.Length
      requires LibraryNside(Npix2Nside(data_in.Length), scheme_in)
      modifies this
      ensures Valid() && data == data_in && scheme == scheme_in && nside == Npix2Nside(data_in.Length)
    {
      nside, scheme := Npix2Nside(data_in.Length), scheme_in;
      data := data_in;
    }

    /** fill: every pixel takes the value. */
    method Fill(val: JByte)
      requires Valid()
      modifies data
      ensures forall i :: 0 <= i < data.Length ==> data[i] == val
    {
      for i := 0 to data.Length
        invariant forall k :: 0 <= k < i ==> data[k] == val
      {
        data[i] := val;
      }
    }

    /** getPixel: the byte at the index, widened to a float. */
    method GetPixel(ipix: int) returns (v: real)
      requires Valid() && 0 <= ipix < data.Length
      ensures v == data[ipix] as real && -128.0 <= v < 128.0
    {
      v := data[ipix] as real;
    }

    /** setPixel: the index takes the value and every other pixel is unchanged. */
    method SetPixel(ipix: int, val: JByte)
      requires Valid() && 0 <= ipix < data.Length
      modifies data
      ensures data[ipix] == val
      ensures forall i :: 0 <= i < data.Length && i != ipix ==> data[i] == old(data[i])
    {
      data[ipix] := val;
    }

    /**
     * swapScheme: converts the map between RING and NESTED in place by walking every
     * cycle of the renumbering once, with a one-byte buffer; the values are permuted
     * and the scheme is toggled. Refused for orders outside [0, JHIPS.ORDER].
     */
    method SwapScheme(g: Geometry, ghost orbits: seq<seq<int>>, ghost owner: seq<int>, ghost pos: seq<int>)
      returns (ok: bool)
      requires Valid()
      requires 0 <= Order(nside) <= maxOrder ==>
                 CycleCertificate(g, nside, scheme, g.swapCycle(Order(nside)), orbits, owner, pos)
      modifies this, data
      ensures Valid() && data == old(data) && nside == old(nside)
      ensures ok == (0 <= Order(nside) <= maxOrder)
      ensures !ok ==> scheme == old(scheme) && data[..] == old(data[..])
      ensures ok ==> scheme == Other(old(scheme))
      ensures ok ==> forall i :: 0 <= i < data.Length ==>
                       0 <= SwapStep(g, nside, old(scheme), i) < data.Length
                       && data[i] == old(data[..])[SwapStep(g, nside, old(scheme), i)]
      ensures multiset(data[..]) == multiset(old(data[..]))
    {
      var order := Order(nside);
      if !(order >= 0 && order <= maxOrder) {
        return false;
      }
      var cycles := g.swapCycle(order);
      CycleStepInRange(g, nside, scheme, cycles, orbits, owner, pos);
      ghost var D := data[..];
      var m := 0;
      while m < |cycles|
        invariant 0 <= m <= |cycles|
        invariant Valid() && data == old(data) && nside == old(nside) && scheme == old(scheme)
        invariant PartlySwapped(g, nside, scheme, data[..], D, owner, pos, m, 0)
        invariant multiset(data[..]) == multiset(D)
      {
        RotateCycle(g, cycles, orbits, owner, pos, D, m);
        m := m + 1;
      }
      AllSwapped(g, nside, scheme, cycles, orbits, owner, pos, data[..], D);
      scheme := if scheme == Ring then Nested else Ring;
      ok := true;
    }

    /**
     * One cycle of swapScheme: starting from swap_cycle[m], every pixel of the cycle
     * takes the value of the pixel the renumbering sends it to; the first value waits
     * in a buffer for the last pixel.
     */
    method RotateCycle(g: Geometry, cycles: seq<int>, ghost orbits: seq<seq<int>>, ghost owner: seq<int>,
                       ghost pos: seq<int>, ghost D: seq<JByte>, m: int)
      requires Valid() && CycleCertificate(g, nside, scheme, cycles, orbits, owner, pos)
      requires 0 <= m < |cycles|
      requires PartlySwapped(g, nside, scheme, data[..], D, owner, pos, m, 0)
      requires multiset(data[..]) == multiset(D)
      modifies data
      ensures PartlySwapped(g, nside, scheme, data[..], D, owner, pos, m + 1, 0)
      ensures multiset(data[..]) == multiset(D)
    {
      ghost var orbit := orbits[m];
      StartCycle(g, nside, scheme, cycles, orbits, owner, pos, data[..], D, m);
      var istart := cycles[m];
      var pixbuf := data[istart];
      var iold := istart;
      var inew := SwapStep(g, nside, scheme, istart);
      ghost var k := 0;
      while inew != istart
        invariant Walking(g, nside, scheme, orbit, data[..], D, owner, pos, m, k, pixbuf)
        invariant iold == orbit[k] && inew == SwapStep(g, nside, scheme, iold)
        invariant inew == (if k + 1 < |orbit| then orbit[k + 1] else istart)
        decreases |orbit| - k
      {
        RotateStep(g, nside, scheme, cycles, orbits, owner, pos, data[..], D, m, k, pixbuf);
        ghost var before := data[..];
        data[iold] := data[inew];
        assert data[..] == before[iold := before[inew]];
        iold := inew;
        inew := SwapStep(g, nside, scheme, inew);
        k := k + 1;
      }
      CloseCycle(g, nside, scheme, cycles, orbits, owner, pos, data[..], D, m, k, pixbuf);
      ghost var before := data[..];
      data[iold] := pixbuf;
      assert data[..] == before[iold := pixbuf];
    }

    /**
     * importNograde: copies a map of the same resolution. Same scheme: a plain copy;
     * other scheme: orig's pixel m lands at its renumbered index, so that pixel i gets
     * orig's value at the index the other scheme gives it. Refused for another nside.
     */
    method ImportNograde(g: Geometry, orig: HealpixMapByte) returns (ok: bool)
      requires Valid() && orig.Valid() && (orig.data == data ==> orig.scheme == scheme)
      requires nside == orig.nside && scheme != orig.scheme ==> RenumberingLaw(g, nside)
      modifies data
      ensures ok == (nside == orig.nside)
      ensures !ok ==> data[..] == old(data[..])
      ensures ok && orig.scheme == scheme ==> data[..] == orig.data[..]
      ensures ok && orig.scheme != scheme ==> forall i :: 0 <= i < data.Length ==>
                0 <= SwapStep(g, nside, orig.scheme, i) < orig.data.Length
                && data[i] == orig.data[SwapStep(g, nside, orig.scheme, i)]
    {
      if nside != orig.nside {
        return false;
      }
      ok := true;
      if orig.scheme == scheme {
        forall i | 0 <= i < data.Length {
          data[i] := orig.data[i];
        }
      } else {
        SwapStepInverse(g, nside, scheme);
        SwapStepInverse(g, nside, orig.scheme);
        for m := 0 to data.Length
          invariant forall k :: 0 <= k < m ==> data[SwapStep(g, nside, scheme, k)] == orig.data[k]
        {
          var target := if scheme == Nested then g.ring2nest(nside, m) else g.nest2ring(nside, m);
          data[target] := orig.data[m];
        }
        assert orig.scheme == Other(scheme);
        forall i | 0 <= i < data.Length
          ensures data[i] == orig.data[SwapStep(g, nside, orig.scheme, i)]
        {
          var k := SwapStep(g, nside, orig.scheme, i);
          assert SwapStep(g, nside, scheme, k) == i;
        }
      }
    }

    /**
     * importUpgrade: copies a coarser map whose nside divides this one's: every pixel
     * of orig fills its fact×fact block of subpixels, so each pixel of this map gets
     * the value of its parent. Refused unless this nside is a larger multiple.
     */
    method ImportUpgrade(g: Geometry, orig: HealpixMapByte) returns (ok: bool)
      requires Valid() && orig.Valid()
      requires FaceLaw(g, nside, scheme) && FaceLaw(g, orig.nside, orig.scheme)
      modifies data
      ensures ok == (nside > orig.nside && nside % orig.nside == 0)
      ensures !ok ==> data[..] == old(data[..])
      ensures ok ==> forall q :: 0 <= q < data.Length ==>
                0 <= Parent(g, nside, scheme, orig.nside, orig.scheme, nside / orig.nside, q) < orig.data.Length
                && data[q] == orig.data[Parent(g, nside, scheme, orig.nside, orig.scheme, nside / orig.nside, q)]
    {
      if nside <= orig.nside {
        return false;
      }
      var fact := nside / orig.nside;
      if nside != orig.nside * fact {
        return false;
      }
      ok := true;
      NpixIncreasing(orig.nside, nside);
      var onside, oscheme := orig.nside, orig.scheme;
      UpgradeInto(g, orig.data, onside, oscheme, data, nside, scheme, fact);
    }

    /**
     * importDegrade: copies a finer map whose nside is a multiple of this one's: each
     * pixel gets the truncated mean of the subpixels of its block that approx does
     * not call zero, or 0 when fewer than minhits were counted (all fact² of them
     * when pessimistic, at least one otherwise). Refused unless orig's nside is a
     * larger multiple.
     */
    method ImportDegrade(g: Geometry, orig: HealpixMapByte, pessimistic: bool) returns (ok: bool)
      requires Valid() && orig.Valid()
      requires FaceLaw(g, nside, scheme) && FaceLaw(g, orig.nside, orig.scheme)
      modifies data
      ensures ok == (nside < orig.nside && orig.nside % nside == 0)
      ensures !ok ==> data[..] == old(data[..])
      ensures ok ==> forall m :: 0 <= m < data.Length ==>
                data[m] == Degraded(Stats(g, orig.data[..], orig.nside, orig.scheme, nside, scheme, orig.nside / nside, m),
                                    MinHits(pessimistic, orig.nside / nside))
    {
      if nside >= orig.nside {
        return false;
      }
      var fact := orig.nside / nside;
      if orig.nside != nside * fact {
        return false;
      }
      ok := true;
      NpixIncreasing(nside, orig.nside);
      var onside, oscheme := orig.nside, orig.scheme;
      ghost var od := orig.data[..];
      var minhits := if pessimistic then fact * fact else 1;
      assert minhits >= 1 by { MulMonotone(fact, 1, fact); }
      for m := 0 to data.Length
        invariant orig.data[..] == od
        invariant DegradedBelow(g, od, onside, oscheme, nside, scheme, fact, minhits, data[..], m)
      {
        var v := DegradePixel(g, orig.data, onside, oscheme, nside, scheme, fact, minhits, m);
        ghost var before := data[..];
        data[m] := v;
        DegradeStep(g, od, onside, oscheme, nside, scheme, fact, minhits, before, data[..], m, v);
      }
    }

    /** importGeneral: same nside, upgrade or degrade, by comparing the resolutions. */
    method ImportGeneral(g: Geometry, orig: HealpixMapByte, pessimistic: bool) returns (ok: bool)
      requires Valid() && orig.Valid() && (orig.data == data ==> orig.scheme == scheme)
      requires RenumberingLaw(g, nside) && FaceLaw(g, nside, scheme) && FaceLaw(g, orig.nside, orig.scheme)
      modifies data
      ensures orig.nside == nside ==> ok
      ensures orig.nside < nside ==> ok == (nside % orig.nside == 0)
      ensures orig.nside > nside ==> ok == (orig.nside % nside == 0)
      ensures !ok ==> data[..] == old(data[..])
      ensures orig.nside == nside && orig.scheme == scheme ==> data[..] == orig.data[..]
      ensures orig.nside == nside && orig.scheme != scheme ==> forall i :: 0 <= i < data.Length ==>
                0 <= SwapStep(g, nside, orig.scheme, i) < orig.data.Length
                && data[i] == orig.data[SwapStep(g, nside, orig.scheme, i)]
      ensures ok && orig.nside < nside ==> forall q :: 0 <= q < data.Length ==>
                0 <= Parent(g, nside, scheme, orig.nside, orig.scheme, nside / orig.nside, q) < orig.data.Length
                && data[q] == orig.data[Parent(g, nside, scheme, orig.nside, orig.scheme, nside / orig.nside, q)]
      ensures ok && orig.nside > nside ==> forall m :: 0 <= m < data.Length ==>
                data[m] == Degraded(Stats(g, orig.data[..], orig.nside, orig.scheme, nside, scheme, orig.nside / nside, m),
                                    MinHits(pessimistic, orig.nside / nside))
    {
      if orig.nside == nside {
        ok := ImportNograde(g, orig);
      } else if orig.nside < nside {
        ok := ImportUpgrade(g, orig);
      } else {
        ok := ImportDegrade(g, orig, pessimistic);
      }
    }
  }
}
