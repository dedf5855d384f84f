// The 64-bit mask that tells which of the available devices are recorded.
module DeviceMask {
  import opened InputEvents
  import opened PowersOfTwo

  type uint64 = n: int | 0 <= n < 0x1_0000_0000_0000_0000

  const ALL_DEVICES: uint64 := 0xFFFF_FFFF_FFFF_FFFF

  /** (mask & (1ULL << i)) != 0 */
  predicate Has(mask: nat, i: nat) {
    if i == 0 then mask % 2 == 1 else Has(mask / 2, i - 1)
  }

  /** mask | (1ULL << i) */
  function With(mask: nat, i: nat): nat {
    if i == 0 then mask / 2 * 2 + 1 else With(mask / 2, i - 1) * 2 + mask % 2
  }

  /** The devices among the first n whose bit is set, in order. */
  function Selected(available: seq<Device>, mask: uint64, n: nat): seq<Device>
    requires n <= |available| <= 64
  {
    if n == 0 then []
    else Selected(available, mask, n - 1) + if Has(mask, n - 1) then [available[n - 1]] else []
  }

  /** The available devices whose file descriptor was asked for, in order. */
  function Wanted(available: seq<Device>, fds: set<int>): seq<Device> {
    if available == [] then []
    else
      var last := available[|available| - 1];
      Wanted(available[..|available| - 1], fds) + if last.fd in fds then [last] else []
  }

  lemma {:induction false} SelectedIsShort(available: seq<Device>, mask: uint64, n: nat)
    requires n <= |available| <= 64
    ensures |Selected(available, mask, n)| <= n
    ensures forall d :: d in Selected(available, mask, n) ==> d in available
  {
    if n == 0 {
    } else {
      SelectedIsShort(available, mask, n - 1);
    }
  }

  /** Setting one bit changes the answer for that device only. */
  lemma {:induction false} BitsAreIndependent(mask: nat, i: nat, j: nat)
    ensures Has(With(mask, i), j) <==> Has(mask, j) || i == j
  {
    if i == 0 || j == 0 {
    } else {
      BitsAreIndependent(mask / 2, i - 1, j - 1);
    }
  }

  lemma {:induction false} ZeroHasNone(i: nat)
    ensures !Has(0, i)
  {
    if i == 0 {
    } else {
      ZeroHasNone(i - 1);
    }
  }

  /** A bit below position k keeps the mask a k-bit number. */
  lemma {:induction false} MaskFits(mask: nat, i: nat, k: nat)
    requires i < k && mask < PowerOf2(k)
    ensures With(mask, i) < PowerOf2(k)
  {
    if i == 0 {
    } else {
      assert mask / 2 < PowerOf2(k - 1);
      MaskFits(mask / 2, i - 1, k - 1);
    }
  }

  lemma {:induction false} AllOnes(k: nat, i: nat)
    requires i < k
    ensures Has(PowerOf2(k) - 1, i)
  {
    if i == 0 {
    } else {
      assert (PowerOf2(k) - 1) / 2 == PowerOf2(k - 1) - 1;
      AllOnes(k - 1, i - 1);
    }
  }

  /** A mask whose bits say "this fd was requested" decodes to exactly those devices. */
  lemma {:induction false} MaskRoundTrip(available: seq<Device>, mask: uint64, fds: set<int>, n: nat)
    requires n <= |available| <= 64
    requires forall i :: 0 <= i < n ==> (Has(mask, i) <==> available[i].fd in fds)
    ensures Selected(available, mask, n) == Wanted(available[..n], fds)
  {
    if n == 0 {
    } else {
      MaskRoundTrip(available, mask, fds, n - 1);
      assert available[..n][..n - 1] == available[..n - 1];
    }
  }

  /** mask has the bits for the first i devices, and no others. */
  ghost predicate MaskUpTo(available: seq<Device>, fds: set<int>, mask: int, i: nat) {
    && i <= |available| <= 64 && 0 <= mask < PowerOf2(64)
    && (forall j :: 0 <= j < i ==> (Has(mask, j) <==> available[j].fd in fds))
    && (forall j :: i <= j ==> !Has(mask, j))
  }

  lemma MaskStart(available: seq<Device>, fds: set<int>)
    requires |available| <= 64
    ensures MaskUpTo(available, fds, 0, 0)
  {
    forall j: nat ensures !Has(0, j) { ZeroHasNone(j); }
  }

  lemma MaskNext(available: seq<Device>, fds: set<int>, mask: nat, i: nat)
    requires MaskUpTo(available, fds, mask, i) && i < |available|
    ensures MaskUpTo(available, fds, if available[i].fd in fds then With(mask, i) else mask, i + 1)
  {
    MaskFits(mask, i, 64);
    forall j: nat ensures Has(With(mask, i), j) <==> Has(mask, j) || i == j {
      BitsAreIndependent(mask, i, j);
    }
  }

  lemma MaskDone(available: seq<Device>, fds: set<int>, mask: nat)
    requires MaskUpTo(available, fds, mask, |available|)
    ensures mask < 0x1_0000_0000_0000_0000
    ensures Selected(available, mask, |available|) == Wanted(available, fds)
  {
    SomePowers();
    MaskRoundTrip(available, mask, fds, |available|);
    assert available[..|available|] == available;
  }

  /** A recorder that was never told otherwise records every available device. */
  lemma {:induction false} DefaultMaskSelectsAll(available: seq<Device>, n: nat)
    requires n <= |available| <= 64
    ensures Selected(available, ALL_DEVICES, n) == available[..n]
  {
    if n == 0 {
    } else {
      DefaultMaskSelectsAll(available, n - 1);
      SomePowers();
      AllOnes(64, n - 1);
    }
  }

  /** Asking for fds picks each available device with such an fd once and no other. */
  lemma {:induction false} WantedIsExact(available: seq<Device>, fds: set<int>, d: Device)
    ensures multiset(Wanted(available, fds))[d] == if d.fd in fds then multiset(available)[d] else 0
  {
    if available == [] {
    } else {
      var n := |available| - 1;
      WantedIsExact(available[..n], fds, d);
      assert available == available[..n] + [available[n]];
    }
  }
}
