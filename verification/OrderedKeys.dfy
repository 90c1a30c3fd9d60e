/** Keys of an ordered store: byte order, and numbers written so that byte order is numeric order. */
module OrderedKeys {
  type Key = string

  // ---- Byte order -----------------------------------------------------------------------------

  predicate Before(a: Key, b: Key) {
    b != "" && (a == "" || a[0] < b[0] || (a[0] == b[0] && Before(a[1..], b[1..])))
  }

  predicate IsPrefix(p: Key, k: Key) {
    |p| <= |k| && k[..|p|] == p
  }

  lemma {:induction false} BeforeIsTotal(a: Key, b: Key)
    ensures a == b || Before(a, b) || Before(b, a)
    ensures !(Before(a, b) && Before(b, a)) && !Before(a, a)
  {
    if a != "" && b != "" && a[0] == b[0] {
      BeforeIsTotal(a[1..], b[1..]);
      assert a == [a[0]] + a[1..] && b == [b[0]] + b[1..];
    }
    if a != "" {
      BeforeIsTotal(a[1..], a[1..]);
    }
  }

  lemma {:induction false} BeforeIsTransitive(a: Key, b: Key, c: Key)
    requires Before(a, b) && Before(b, c)
    ensures Before(a, c)
  {
    if a != "" && a[0] == b[0] == c[0] {
      BeforeIsTransitive(a[1..], b[1..], c[1..]);
    }
  }

  lemma {:induction false} CommonPrefix(p: Key, a: Key, b: Key)
    ensures Before(p + a, p + b) <==> Before(a, b)
  {
    if p == "" {
      assert p + a == a && p + b == b;
    } else {
      CommonPrefix(p[1..], a, b);
      assert (p + a)[1..] == p[1..] + a && (p + b)[1..] == p[1..] + b;
    }
  }

  /** Fields of one width decide the order before anything behind them. */
  lemma {:induction false} FieldDecides(a: Key, b: Key, x: Key, y: Key)
    requires |a| == |b| && Before(a, b)
    ensures Before(a + x, b + y)
  {
    if a[0] == b[0] {
      FieldDecides(a[1..], b[1..], x, y);
      assert (a + x)[1..] == a[1..] + x && (b + y)[1..] == b[1..] + y;
    }
  }

  // ---- Zero-padded numbers ---------------------------------------------------------------------

  const WIDTH := 20
  const UINT64 := 0x1_0000_0000_0000_0000

  function Power(width: nat): nat {
    if width == 0 then 1 else 10 * Power(width - 1)
  }

  function Digit(d: nat): char
    requires d < 10
  {
    ('0' as int + d) as char
  }

  /** n in decimal, filled with zeros to the given width. */
  function Decimal(n: nat, width: nat): (text: Key)
    ensures |text| == width
  {
    if width == 0 then "" else Decimal(n / 10, width - 1) + [Digit(n % 10)]
  }

  lemma {:induction false} DecimalOrder(a: nat, b: nat, width: nat)
    requires a < b < Power(width)
    ensures Before(Decimal(a, width), Decimal(b, width))
  {
    var p, q := Decimal(a / 10, width - 1), Decimal(b / 10, width - 1);
    if a / 10 < b / 10 {
      DecimalOrder(a / 10, b / 10, width - 1);
      FieldDecides(p, q, [Digit(a % 10)], [Digit(b % 10)]);
    } else {
      CommonPrefix(p, [Digit(a % 10)], [Digit(b % 10)]);
    }
  }

  /** %020d */
  function Padded(n: nat): (text: Key)
    ensures |text| == WIDTH
  {
    Decimal(n, WIDTH)
  }

  lemma TwentyDigits()
    ensures UINT64 < Power(WIDTH)
  {
    assert Power(5) == 100_000;
    assert Power(10) == 10_000_000_000;
    assert Power(15) == 1_000_000_000_000_000;
  }

  /** Twenty digits hold every uint64, so the order of the texts is the order of the numbers. */
  lemma PaddedOrder(a: nat, b: nat)
    requires a < UINT64 && b < UINT64
    ensures Before(Padded(a), Padded(b)) <==> a < b
    ensures Padded(a) == Padded(b) <==> a == b
  {
    TwentyDigits();
    BeforeIsTotal(Padded(a), Padded(b));
    if a < b {
      DecimalOrder(a, b, WIDTH);
    } else if b < a {
      DecimalOrder(b, a, WIDTH);
    }
  }

  // ---- Keys of one chain -----------------------------------------------------------------------

  function StorageKeyPrefix(chain: Key): Key {
    "chain:" + chain + ":"
  }

  function BlockKey(chain: Key, height: nat): Key {
    StorageKeyPrefix(chain) + "block:" + Padded(height)
  }

  function LogKey(chain: Key, block: nat, index: nat): Key {
    StorageKeyPrefix(chain) + "log:" + Padded(block) + ":" + Padded(index)
  }

  lemma BlockKeyOrder(chain: Key, a: nat, b: nat)
    requires a < UINT64 && b < UINT64
    ensures Before(BlockKey(chain, a), BlockKey(chain, b)) <==> a < b
  {
    CommonPrefix(StorageKeyPrefix(chain) + "block:", Padded(a), Padded(b));
    PaddedOrder(a, b);
  }

  /** Logs sort by block and then by index. */
  lemma LogKeyOrder(chain: Key, a: nat, i: nat, b: nat, j: nat)
    requires a < UINT64 && b < UINT64 && i < UINT64 && j < UINT64
    ensures Before(LogKey(chain, a, i), LogKey(chain, b, j)) <==> a < b || (a == b && i < j)
  {
    var p := StorageKeyPrefix(chain) + "log:";
    var x, y := Padded(a) + ":" + Padded(i), Padded(b) + ":" + Padded(j);
    assert LogKey(chain, a, i) == p + x && LogKey(chain, b, j) == p + y;
    CommonPrefix(p, x, y);
    PaddedOrder(a, b);
    PaddedOrder(i, j);
    BeforeIsTotal(x, y);
    assert x == Padded(a) + (":" + Padded(i)) && y == Padded(b) + (":" + Padded(j));
    if a < b {
      FieldDecides(Padded(a), Padded(b), ":" + Padded(i), ":" + Padded(j));
    } else if b < a {
      PaddedOrder(b, a);
      FieldDecides(Padded(b), Padded(a), ":" + Padded(j), ":" + Padded(i));
    } else {
      CommonPrefix(Padded(a) + ":", Padded(i), Padded(j));
    }
  }

  /** Whatever characters a chain identifier holds, no two blocks share a key. */
  lemma BlockKeyIsUnique(chain: Key, a: nat, other: Key, b: nat)
    requires a < UINT64 && b < UINT64
    ensures BlockKey(chain, a) == BlockKey(other, b) <==> chain == other && a == b
  {
    var k, l := BlockKey(chain, a), BlockKey(other, b);
    PaddedOrder(a, b);
    if k == l {
      assert |chain| == |other|;
      assert k[6..6 + |chain|] == chain && l[6..6 + |chain|] == other;
      assert k[|k| - WIDTH..] == Padded(a) && l[|k| - WIDTH..] == Padded(b);
    }
  }

  /** ... and no block shares one with a log: a digit stands where a block key has a letter. */
  lemma BlockIsNoLog(chain: Key, a: nat, other: Key, b: nat, i: nat)
    ensures BlockKey(chain, a) != LogKey(other, b, i)
  {
    var k, l := BlockKey(chain, a), LogKey(other, b, i);
    assert k[|k| - WIDTH - 2] == "block:"[4];
    assert l[|l| - WIDTH - 2] == Padded(b)[WIDTH - 1] == Digit(b % 10);
  }
}
