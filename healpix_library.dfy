/**
 * The parts of the HEALPix library (healpix.essentials) that the model states
 * exactly: pixel counts, the accepted resolutions, nside2order and npix2Nside.
 */
module HealpixLibrary {
  import opened JavaNumerics

  datatype Scheme = Ring | Nested

  /** A direction on the sphere as healpix.essentials.Pointing holds it: colatitude theta, longitude phi. */
  datatype Pointing = Pointing(theta: real, phi: real)

  function Npix(nside: int): int { 12 * nside * nside }

  function Other(s: Scheme): Scheme { if s == Ring then Nested else Ring }

  predicate IsPow2(n: int)
    decreases n
  {
    n >= 1 && (n == 1 || (n % 2 == 0 && IsPow2(n / 2)))
  }

  /** nside2order: the base-2 logarithm of a power of two, and -1 otherwise. */
  function Order(nside: int): int {
    if IsPow2(nside) then Ilog2(nside) else -1
  }

  /** ns_max of healpix.essentials: 2^29. */
  const NSIDE_MAX := 0x2000_0000

  /** The resolutions healpix.essentials accepts for a scheme. */
  predicate LibraryNside(nside: int, scheme: Scheme) {
    1 <= nside <= NSIDE_MAX && (scheme == Nested ==> IsPow2(nside))
  }

  lemma {:induction false} Pow2IsPow2(k: nat)
    ensures IsPow2(Pow2(k))
  {
    if k > 0 {
      Pow2IsPow2(k - 1);
    }
  }

  function IsqrtFrom(n: nat, k: nat): (r: nat)
    requires k * k <= n
    decreases n - k
    ensures r * r <= n < (r + 1) * (r + 1)
  {
    if (k + 1) * (k + 1) > n then k
    else
      assert k + 1 <= (k + 1) * (k + 1);
      IsqrtFrom(n, k + 1)
  }

  /** npix2Nside: the nside whose pixel count is `npix`, when there is one. */
  function Npix2Nside(npix: nat): (r: nat)
    ensures Npix(r) <= npix < Npix(r + 1) + 12
  {
    IsqrtFrom(npix / 12, 0)
  }

  /** nside2order undoes 2^order for every order. */
  lemma OrderOfPow2(k: nat)
    ensures Order(Pow2(k)) == k
  {
    Pow2IsPow2(k);
    Ilog2OfPow2(k);
  }
}
