/** The structural check of a seal, and why two seals that pass it share an honest signer. */
module Quorum {
  import opened Storage
  import opened SealerBitmap

  const SEAL_LENGTH := 96
  const WORD := 0x1_0000_0000_0000_0000   // uint64 arithmetic is modulo this

  datatype Verdict =
    | Accepted
    | MissingSeal
    | WrongLength(length: nat)
    | EmptySignature
    | NoSealers
    | NoSigners
    | TooFewSigners(got: nat, need: nat)

  function Threshold(validators: nat): nat {
    validators * 2 / 3 + 1
  }

  predicate EnoughSigners(seal: Seal, n: nat) {
    |Signers(seal.sealers, n)| >= Threshold(n)
  }

  /** What the check demands of a seal against n validators. */
  ghost predicate Passes(seal: Seal, n: nat) {
    && |seal.signature| == SEAL_LENGTH
    && (exists k :: 0 <= k < SEAL_LENGTH && seal.signature[k] != 0)
    && EnoughSigners(seal, n)
  }

  method IsEmptySignature(signature: seq<Byte>) returns (empty: bool)
    ensures empty <==> forall k :: 0 <= k < |signature| ==> signature[k] == 0
  {
    for i := 0 to |signature|
      invariant forall k :: 0 <= k < i ==> signature[k] == 0
    {
      if signature[i] != 0 {
        return false;
      }
    }
    return true;
  }

  method VerifySeal(seal: Option<Seal>, validators: nat) returns (verdict: Verdict)
    ensures verdict.Accepted? <==> seal.Some? && Passes(seal.value, validators)
    ensures verdict.NoSigners? ==> seal.Some? && Signers(seal.value.sealers, validators) == []
    ensures verdict.TooFewSigners? ==>
      && seal.Some? && verdict.got == |Signers(seal.value.sealers, validators)|
      && 0 < verdict.got < verdict.need == Threshold(validators)
  {
    if seal.None? {
      return MissingSeal;
    }
    var signature, sealers := seal.value.signature, seal.value.sealers;
    if |signature| != SEAL_LENGTH {
      return WrongLength(|signature|);
    }
    var empty := IsEmptySignature(signature);
    if empty {
      return EmptySignature;
    }
    if |sealers| == 0 {
      SignersStop(sealers, 0, validators);
      return NoSealers;
    }
    var count := CountSigners(sealers, validators);
    if count == 0 {
      return NoSigners;
    }
    if count < Threshold(validators) {
      return TooFewSigners(count, Threshold(validators));
    }
    return Accepted;
  }

  // ---- Intersection ---------------------------------------------------------------------------

  /** The validators that signed, as a set. */
  function SignerSet(seal: Seal, n: nat): set<nat> {
    Below(NamedSet(seal.sealers), n)
  }

  lemma {:induction false} AtMost(some: set<nat>, n: nat)
    requires forall i :: i in some ==> i < n
    ensures |some| <= n
  {
    if n == 0 {
      assert some == {};
    } else {
      AtMost(some - {n - 1}, n - 1);
    }
  }

  lemma Overlap(some: set<nat>, other: set<nat>, n: nat)
    requires forall i :: i in some || i in other ==> i < n
    ensures |some * other| >= |some| + |other| - n
  {
    AtMost(some + other, n);
  }

  /** With n = 3f + 1 to 3f + 3 validators, of which at most f are faulty, f + 1 shared signers include a correct one. */
  lemma QuorumsIntersect(a: Seal, b: Seal, n: nat)
    requires Passes(a, n) && Passes(b, n)
    ensures n >= 1 && |SignerSet(a, n) * SignerSet(b, n)| >= (n - 1) / 3 + 1
    ensures forall faulty: set<nat> :: |faulty| <= (n - 1) / 3 ==> exists i :: i in SignerSet(a, n) * SignerSet(b, n) - faulty
  {
    ListingMembers(NamedSet(a.sealers), n);
    ListingMembers(NamedSet(b.sealers), n);
    var both := SignerSet(a, n) * SignerSet(b, n);
    Overlap(SignerSet(a, n), SignerSet(b, n), n);
    AtMost(SignerSet(a, n), n);
    forall faulty: set<nat> | |faulty| <= (n - 1) / 3 ensures exists i :: i in both - faulty {
      assert both == (both - faulty) + (both * faulty);
      AtMostSubset(both * faulty, faulty);
      assert |both - faulty| > 0;
      var i :| i in both - faulty;
    }
  }

  lemma AtMostSubset(some: set<nat>, all: set<nat>)
    requires some <= all
    ensures |some| <= |all|
  {
    assert all == some + (all - some);
  }

  function Range(lo: nat, hi: nat): (all: set<nat>)
    requires lo <= hi
    ensures |all| == hi - lo && forall i: nat :: i in all <==> lo <= i < hi
  {
    if lo == hi then {} else Range(lo, hi - 1) + {hi - 1}
  }

  /** Two sets of one signer fewer than the threshold that share too few to include a correct one. */
  ghost predicate TooFewShared(a: set<nat>, b: set<nat>, n: nat)
    requires n > 0
  {
    && (forall i :: i in a || i in b ==> i < n)
    && |a| == |b| == Threshold(n) - 1
    && |a * b| < (n - 1) / 3 + 1
  }

  /** The first q and the last q of n. */
  lemma EndsShare(n: nat, q: nat)
    requires q <= n
    ensures |Range(0, q) * Range(n - q, n)| == if 2 * q >= n then 2 * q - n else 0
  {
    assert Range(0, q) * Range(n - q, n) == if n - q <= q then Range(n - q, q) else {};
  }

  lemma SharedByThreshold(n: nat)
    requires n > 0
    ensures n % 3 == 0 ==> 2 * (Threshold(n) - 1) - n >= (n - 1) / 3 + 1
    ensures n % 3 != 0 ==> Threshold(n) - 1 <= n && 2 * (Threshold(n) - 1) - n < (n - 1) / 3 + 1
  {
    var f, r := n / 3, n % 3;
    assert n == 3 * f + r;
    assert Threshold(n) - 1 == 2 * f + if r == 2 then 1 else 0;
  }

  /** The threshold cannot be lowered by one exactly when the number of validators is no multiple of three. */
  lemma ThresholdIsTight(n: nat)
    requires n > 0
    ensures (exists a, b :: TooFewShared(a, b, n)) <==> n % 3 != 0
  {
    var q := Threshold(n) - 1;
    SharedByThreshold(n);
    hide Threshold;
    if n % 3 == 0 {
      forall a, b | TooFewShared(a, b, n) ensures false {
        Overlap(a, b, n);
      }
    } else {
      EndsShare(n, q);
      assert TooFewShared(Range(0, q), Range(n - q, n), n);
    }
  }

  // ---- The configurable quorum ----------------------------------------------------------------

  /** A uint64 read back as Go's int. */
  function AsInt(x: nat): int {
    if x % WORD < WORD / 2 then x % WORD else x % WORD - WORD
  }

  function CalculateQuorum(validators: int, numerator: nat, denominator: nat): int {
    var d := if denominator == 0 then 3 else denominator;
    var m := if numerator == 0 then 2 else numerator;
    AsInt((validators % WORD) * m % WORD / d) + 1
  }

  lemma Wraps(x: nat)
    requires x < WORD
    ensures x % WORD == x
    ensures x < WORD / 2 ==> AsInt(x) == x
  {
  }

  lemma FactorFits(n: nat, m: nat)
    requires m > 0
    ensures n <= n * m
  {
  }

  lemma Quotient(n: nat, d: nat)
    requires d > 0
    ensures 0 <= n / d <= n && n / d * d <= n < (n / d + 1) * d
  {
    var q := n / d;
    assert n == q * d + n % d;
    FactorFits(q, d);
    assert (q + 1) * d == q * d + d;
  }

  /** The wrapped computation without overflow. */
  lemma Unwrapped(n: nat, m: nat, d: nat)
    requires m > 0 && d > 0 && n * m < WORD / 2
    ensures AsInt((n % WORD) * m % WORD / d) == n * m / d
  {
    hide AsInt;
    FactorFits(n, m);
    Wraps(n);
    Wraps(n * m);
    Quotient(n * m, d);
    Wraps(n * m / d);
  }

  /** Without overflow it is the smallest whole number above the fraction of the validators; a zero stands for 2 or 3. */
  lemma QuorumIsLeastAbove(validators: nat, numerator: nat, denominator: nat)
    requires validators * (if numerator == 0 then 2 else numerator) < WORD / 2
    ensures var q, m := CalculateQuorum(validators, numerator, denominator), if numerator == 0 then 2 else numerator;
      var d := if denominator == 0 then 3 else denominator;
      (q - 1) * d <= validators * m < q * d
  {
    hide AsInt;
    var m, d := if numerator == 0 then 2 else numerator, if denominator == 0 then 3 else denominator;
    Unwrapped(validators, m, d);
    Quotient(validators * m, d);
  }

  predicate HasQuorum(count: int, total: int, numerator: nat, denominator: nat) {
    count >= CalculateQuorum(total, numerator, denominator)
  }

  /** For every count of validators an int can hold, the configured two thirds is the threshold of the seal check. */
  lemma QuorumIsThreshold(n: nat)
    requires n < WORD / 2
    ensures CalculateQuorum(n, 2, 3) == Threshold(n) == CalculateQuorum(n, 0, 0)
    ensures forall seal: Seal :: HasQuorum(|Signers(seal.sealers, n)|, n, 2, 3) <==> EnoughSigners(seal, n)
  {
    TwoThirds(n);
    hide CalculateQuorum, Threshold, Signers;
  }

  lemma TwoThirds(n: nat)
    requires n < WORD / 2
    ensures CalculateQuorum(n, 2, 3) == Threshold(n) == CalculateQuorum(n, 0, 0)
  {
  }
}
