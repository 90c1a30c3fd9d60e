/** The bitmap by which a WBFT seal names its signers. */
module SealerBitmap {
  import opened Common
  import opened Storage

  type Byte = bv8

  const BITS_PER_BYTE := 8

  // ---- Bits -----------------------------------------------------------------------------------

  /** Whether bit k of a byte is set. */
  predicate Bit(b: Byte, k: nat)
    requires k < 8
  {
    b & ((1 as Byte) << k) != 0
  }

  /** Whether the bitmap names validator i. */
  predicate Named(bitmap: seq<Byte>, i: nat) {
    i / 8 < |bitmap| && Bit(bitmap[i / 8], i % 8)
  }

  function Ones(b: Byte): (n: nat)
  {
    One(Bit(b, 0)) + One(Bit(b, 1)) + One(Bit(b, 2)) + One(Bit(b, 3))
    + One(Bit(b, 4)) + One(Bit(b, 5)) + One(Bit(b, 6)) + One(Bit(b, 7))
  }

  lemma SameBits(a: Byte, b: Byte)
    requires forall k :: 0 <= k < 8 ==> Bit(a, k) == Bit(b, k)
    ensures a == b
  {
    assert Bit(a, 0) == Bit(b, 0) && Bit(a, 1) == Bit(b, 1) && Bit(a, 2) == Bit(b, 2) && Bit(a, 3) == Bit(b, 3);
    assert Bit(a, 4) == Bit(b, 4) && Bit(a, 5) == Bit(b, 5) && Bit(a, 6) == Bit(b, 6) && Bit(a, 7) == Bit(b, 7);
  }

  lemma SetBit(b: Byte, k: nat, m: nat)
    requires k < 8 && m < 8
    ensures Bit(b | ((1 as Byte) << k), m) <==> Bit(b, m) || m == k
  {
  }

  lemma LowestBitGoes(b: Byte)
    requires b != 0
    ensures Ones(b & (b - 1)) + 1 == Ones(b)
  {
  }

  lemma MaskedBit(b: Byte, width: nat, m: nat)
    requires width < 8 && m < 8
    ensures Bit(b & (((1 as Byte) << width) - 1), m) <==> Bit(b, m) && m < width
  {
  }

  // ---- The signers a bitmap names --------------------------------------------------------------

  /** Every index the bitmap names. */
  function NamedSet(bitmap: seq<Byte>): set<nat> {
    set i: nat | i < 8 * |bitmap| && Named(bitmap, i)
  }

  /** The members of all below n, in ascending order. */
  function Listing(all: set<nat>, n: nat): seq<nat> {
    if n == 0 then [] else Listing(all, n - 1) + if n - 1 in all then [n - 1] else []
  }

  /** The validators below n that the bitmap names. */
  function Signers(bitmap: seq<Byte>, n: nat): seq<nat> {
    Listing(NamedSet(bitmap), n)
  }

  function Below(all: set<nat>, n: nat): set<nat> {
    set i | i in all && i < n
  }

  ghost predicate Ascending(l: seq<nat>) {
    forall i, j :: 0 <= i < j < |l| ==> l[i] < l[j]
  }

  lemma {:induction false} ListingMembers(all: set<nat>, n: nat)
    ensures forall i :: i in Listing(all, n) <==> i in all && i < n
    ensures |Listing(all, n)| == |Below(all, n)|
  {
    if n > 0 {
      ListingMembers(all, n - 1);
      assert Below(all, n) == Below(all, n - 1) + if n - 1 in all then {n - 1} else {};
    } else {
      assert Below(all, 0) == {};
    }
  }

  lemma {:induction false} ListingAscends(all: set<nat>, n: nat)
    ensures Ascending(Listing(all, n))
    ensures forall k :: 0 <= k < |Listing(all, n)| ==> Listing(all, n)[k] < n
  {
    if n > 0 {
      ListingAscends(all, n - 1);
    }
  }

  lemma {:induction false} ListingStops(all: set<nat>, m: nat, n: nat)
    requires m <= n && forall i :: m <= i < n ==> i !in all
    ensures Listing(all, n) == Listing(all, m)
  {
    if m < n {
      ListingStops(all, m, n - 1);
    }
  }

  /** Past its last byte a bitmap names nobody. */
  lemma SignersStop(bitmap: seq<Byte>, i: nat, n: nat)
    requires 8 * |bitmap| <= i <= n
    ensures Signers(bitmap, n) == Signers(bitmap, i)
  {
    ListingStops(NamedSet(bitmap), i, n);
  }

  /** countSignersFromBitmap */
  method CountSigners(bitmap: seq<Byte>, validatorCount: nat) returns (count: nat)
    ensures count == |Signers(bitmap, validatorCount)|
  {
    count := 0;
    var i := 0;
    while i < validatorCount
      invariant i <= validatorCount && count == |Signers(bitmap, i)|
    {
      var byteIndex := i / BITS_PER_BYTE;
      var bitIndex := i % BITS_PER_BYTE;
      if byteIndex >= |bitmap| {
        SignersStop(bitmap, i, validatorCount);
        break;
      }
      if Bit(bitmap[byteIndex], bitIndex) {
        count := count + 1;
      }
      i := i + 1;
    }
  }

  /** DecodeSealersFromBitmap */
  method Decode(bitmap: seq<Byte>, totalValidators: int) returns (indices: seq<nat>)
    ensures indices == if totalValidators < 0 then [] else Signers(bitmap, totalValidators)
  {
    indices := [];
    var i := 0;
    while i < totalValidators
      invariant i <= totalValidators || i == 0
      invariant indices == Signers(bitmap, i)
    {
      if i / BITS_PER_BYTE >= |bitmap| {
        SignersStop(bitmap, i, totalValidators);
        break;
      }
      if Bit(bitmap[i / BITS_PER_BYTE], i % BITS_PER_BYTE) {
        indices := indices + [i];
      }
      i := i + 1;
    }
  }

  predicate Within(indices: seq<nat>, n: nat) {
    forall k :: 0 <= k < |indices| ==> indices[k] < n
  }

  /** The validators at the given positions. */
  function At<A>(validators: seq<A>, indices: seq<nat>): (picked: seq<A>)
    requires Within(indices, |validators|)
    ensures |picked| == |indices| && forall k :: 0 <= k < |picked| ==> picked[k] == validators[indices[k]]
  {
    seq(|indices|, k requires 0 <= k < |indices| => validators[indices[k]])
  }

  // ---- Counting every bit ----------------------------------------------------------------------

  lemma ListingGrows(all: set<nat>, n: nat)
    ensures |Listing(all, n + 1)| == |Listing(all, n)| + One(n in all)
  {
  }

  lemma NamedAt(bitmap: seq<Byte>, j: nat, k: nat)
    requires j < |bitmap| && k < 8
    ensures |Signers(bitmap, 8 * j + k + 1)| == |Signers(bitmap, 8 * j + k)| + One(Bit(bitmap[j], k))
  {
    assert (8 * j + k) / 8 == j && (8 * j + k) % 8 == k;
    assert 8 * j + k in NamedSet(bitmap) <==> Bit(bitmap[j], k);
    hide NamedSet, Bit;
    ListingGrows(NamedSet(bitmap), 8 * j + k);
  }

  lemma ByteOfSigners(bitmap: seq<Byte>, j: nat)
    requires j < |bitmap|
    ensures |Signers(bitmap, 8 * j + 8)| == |Signers(bitmap, 8 * j)| + Ones(bitmap[j])
  {
    hide Signers, Bit, One;
    NamedAt(bitmap, j, 0); NamedAt(bitmap, j, 1); NamedAt(bitmap, j, 2); NamedAt(bitmap, j, 3);
    NamedAt(bitmap, j, 4); NamedAt(bitmap, j, 5); NamedAt(bitmap, j, 6); NamedAt(bitmap, j, 7);
  }

  /** countBitsInBitmap, clearing the lowest set bit each time (Kernighan). */
  method CountBits(bitmap: seq<Byte>) returns (count: nat)
    ensures count == |NamedSet(bitmap)|
  {
    count := 0;
    for j := 0 to |bitmap|
      invariant count == |Signers(bitmap, 8 * j)|
    {
      ByteOfSigners(bitmap, j);
      var b := bitmap[j];
      while b != 0
        invariant count + Ones(b) == |Signers(bitmap, 8 * j + 8)|
        decreases Ones(b)
      {
        LowestBitGoes(b);
        count := count + 1;
        b := b & (b - 1);
      }
    }
    ListingMembers(NamedSet(bitmap), 8 * |bitmap|);
    assert Below(NamedSet(bitmap), 8 * |bitmap|) == NamedSet(bitmap);
  }

  /** The two counts agree exactly when no bit at or past the number of validators is set. */
  lemma CountsAgree(bitmap: seq<Byte>, n: nat)
    ensures |Signers(bitmap, n)| <= |NamedSet(bitmap)|
    ensures |Signers(bitmap, n)| == |NamedSet(bitmap)| <==> forall i :: i in NamedSet(bitmap) ==> i < n
  {
    var all := NamedSet(bitmap);
    ListingMembers(all, n);
    var rest := all - Below(all, n);
    assert all == Below(all, n) + rest;
    assert rest == {} <==> forall i :: i in all ==> i < n;
  }

  // ---- Encoding -------------------------------------------------------------------------------

  /** Go's quotient, which truncates towards zero. */
  function Quotient(a: int, b: int): int
    requires b > 0
  {
    if a >= 0 then a / b else -((-a) / b)
  }

  function Size(n: int): nat {
    if n <= 0 then 0 else (n + 7) / 8
  }

  /** The indices that are validators. */
  function Chosen(indices: seq<int>, n: int): set<nat> {
    set i: nat | i < n && i in indices
  }

  /** What the encoder can be given without indexing outside its bitmap or sizing it below zero. */
  predicate Encodable(indices: seq<int>, n: int) {
    n > -15 && forall k :: 0 <= k < |indices| ==> indices[k] >= 0 || indices[k] >= n || (indices[k] >= -7 && n > 0)
  }

  lemma AddName(bitmap: seq<Byte>, i: nat)
    requires i < 8 * |bitmap|
    ensures NamedSet(bitmap[i / 8 := bitmap[i / 8] | ((1 as Byte) << (i % 8))]) == NamedSet(bitmap) + {i}
  {
    var more := bitmap[i / 8 := bitmap[i / 8] | ((1 as Byte) << (i % 8))];
    hide Bit;
    forall m: nat | m < 8 * |bitmap| ensures Named(more, m) <==> Named(bitmap, m) || m == i {
      SetBit(bitmap[i / 8], i % 8, m % 8);
    }
  }

  lemma NoName(bitmap: seq<Byte>)
    requires forall j :: 0 <= j < |bitmap| ==> bitmap[j] == 0
    ensures NamedSet(bitmap) == {}
  {
  }

  lemma ChosenGrows(indices: seq<int>, k: nat, n: int)
    requires k < |indices|
    ensures Chosen(indices[..k + 1], n) ==
      Chosen(indices[..k], n) + if 0 <= indices[k] < n then {indices[k] as nat} else {}
  {
    assert indices[..k + 1] == indices[..k] + [indices[k]];
  }

  /** EncodeSealersToBitmap; None where the source panics. */
  method Encode(indices: seq<int>, totalValidators: int) returns (result: Option<seq<Byte>>)
    ensures result.Some? <==> Encodable(indices, totalValidators)
    ensures result.Some? ==>
      |result.value| == Size(totalValidators) && NamedSet(result.value) == Chosen(indices, totalValidators)
  {
    hide Bit, NamedSet, Chosen;
    var bitmapSize := Quotient(totalValidators + BITS_PER_BYTE - 1, BITS_PER_BYTE);
    if bitmapSize < 0 {
      return None;
    }
    var bitmap := new Byte[bitmapSize](_ => 0);
    NoName(bitmap[..]);
    NoChoice(indices, totalValidators);
    for k := 0 to |indices|
      invariant bitmap.Length == Size(totalValidators)
      invariant NamedSet(bitmap[..]) == Chosen(indices[..k], totalValidators)
      invariant Encodable(indices[..k], totalValidators)
    {
      var index := indices[k];
      ChosenGrows(indices, k, totalValidators);
      if index < totalValidators {
        var byteIndex := Quotient(index, BITS_PER_BYTE);
        if byteIndex < 0 || byteIndex >= bitmapSize {
          return None;
        }
        if index >= 0 {
          AddName(bitmap[..], index);
          ghost var before := bitmap[..];
          bitmap[byteIndex] := bitmap[byteIndex] | ((1 as Byte) << (index % BITS_PER_BYTE));
          assert bitmap[..] == before[index / 8 := before[index / 8] | ((1 as Byte) << (index % 8))];
        }
        // a negative remainder becomes a shift past every bit of the byte, which sets nothing
      }
    }
    assert indices[..|indices|] == indices;
    return Some(bitmap[..]);
  }

  lemma NoChoice(indices: seq<int>, n: int)
    ensures Chosen(indices[..0], n) == {}
  {
  }

  // ---- Round trips ----------------------------------------------------------------------------

  /** Decoding what was encoded gives the chosen validators in ascending order, each once. */
  lemma DecodeEncoded(bitmap: seq<Byte>, indices: seq<int>, n: nat)
    requires |bitmap| == Size(n) && NamedSet(bitmap) == Chosen(indices, n)
    ensures Ascending(Signers(bitmap, n))
    ensures forall i: nat :: i in Signers(bitmap, n) <==> i < n && i in indices
  {
    ListingAscends(NamedSet(bitmap), n);
    ListingMembers(NamedSet(bitmap), n);
  }

  function ByteAt(bitmap: seq<Byte>, j: nat): Byte {
    if j < |bitmap| then bitmap[j] else 0
  }

  function MaskedByte(b: Byte, j: nat, n: nat): Byte {
    if 8 * j + 8 <= n then b else b & (((1 as Byte) << (n % 8)) - 1)
  }

  /** bitmap cut or filled up to the bytes n validators need, with nothing set past them. */
  function Masked(bitmap: seq<Byte>, n: nat): seq<Byte> {
    seq(Size(n), j requires 0 <= j < Size(n) => MaskedByte(ByteAt(bitmap, j), j, n))
  }

  lemma MaskedByteBit(b: Byte, j: nat, n: nat, m: nat)
    requires 8 * j < n && m < 8
    ensures Bit(MaskedByte(b, j, n), m) <==> Bit(b, m) && 8 * j + m < n
  {
    if 8 * j + 8 > n {
      assert n % 8 == n - 8 * j;
      MaskedBit(b, n % 8, m);
    }
  }

  lemma MaskedNamed(bitmap: seq<Byte>, n: nat, i: nat)
    ensures Named(Masked(bitmap, n), i) <==> Named(bitmap, i) && i < n
  {
    hide Bit, MaskedByte;
    var j := i / 8;
    if j < Size(n) {
      ZeroByte(i % 8);
      MaskedByteBit(ByteAt(bitmap, j), j, n, i % 8);
    }
  }

  lemma MaskedNames(bitmap: seq<Byte>, n: nat)
    ensures NamedSet(Masked(bitmap, n)) == Below(NamedSet(bitmap), n)
  {
    forall i: nat ensures Named(Masked(bitmap, n), i) <==> Named(bitmap, i) && i < n {
      MaskedNamed(bitmap, n, i);
    }
    assert forall i: nat :: i in NamedSet(bitmap) <==> Named(bitmap, i);
    assert forall i: nat :: i in NamedSet(Masked(bitmap, n)) <==> Named(Masked(bitmap, n), i);
    hide Named, Masked;
  }

  lemma ZeroByte(k: nat)
    requires k < 8
    ensures !Bit(0, k)
  {
  }

  /** A bitmap is its length and the indices it names. */
  lemma SameNames(a: seq<Byte>, b: seq<Byte>)
    requires |a| == |b| && NamedSet(a) == NamedSet(b)
    ensures a == b
  {
    hide Bit;
    forall j | 0 <= j < |a| ensures a[j] == b[j] {
      forall k: nat | k < 8 ensures Bit(a[j], k) == Bit(b[j], k) {
        assert 8 * j + k in NamedSet(a) <==> 8 * j + k in NamedSet(b);
      }
      SameBits(a[j], b[j]);
    }
  }

  /** Encoding what was decoded gives the bitmap back, fitted to n validators. */
  lemma EncodeDecoded(bitmap: seq<Byte>, n: nat, encoded: seq<Byte>)
    requires |encoded| == Size(n) && NamedSet(encoded) == Chosen(Signers(bitmap, n), n)
    ensures encoded == Masked(bitmap, n)
    ensures Encodable(Signers(bitmap, n), n)
  {
    ListingMembers(NamedSet(bitmap), n);
    MaskedNames(bitmap, n);
    SameNames(encoded, Masked(bitmap, n));
  }

  // ---- Seals ----------------------------------------------------------------------------------

  datatype Seal = Seal(sealers: seq<Byte>, signature: seq<Byte>)

  /** ExtractSignersFromSeal: a missing seal has no signers. */
  method ExtractSigners<A>(seal: Option<Seal>, validators: seq<A>) returns (signers: seq<A>)
    ensures seal.None? ==> signers == []
    ensures seal.Some? ==>
      && Within(Signers(seal.value.sealers, |validators|), |validators|)
      && signers == At(validators, Signers(seal.value.sealers, |validators|))
  {
    if seal.None? || |seal.value.sealers| == 0 {
      if seal.Some? {
        SignersStop(seal.value.sealers, 0, |validators|);
      }
      return [];
    }
    if |validators| == 0 {
      return [];
    }
    var bitmap := seal.value.sealers;
    ListingAscends(NamedSet(bitmap), |validators|);
    signers := [];
    var i := 0;
    while i < |validators|
      invariant i <= |validators|
      invariant Within(Signers(bitmap, i), |validators|)
      invariant signers == At(validators, Signers(bitmap, i))
    {
      if i / BITS_PER_BYTE >= |bitmap| {
        SignersStop(bitmap, i, |validators|);
        break;
      }
      if Bit(bitmap[i / BITS_PER_BYTE], i % BITS_PER_BYTE) {
        signers := signers + [validators[i]];
      }
      i := i + 1;
    }
  }
}
