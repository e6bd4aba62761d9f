/** The ones' complement checksum of the IP family, and numbers in network order (src/net/wire.js). */
module Wire {
  import opened Common

  const ONES := 0xffff

  // ------------------------------------------------------------- the checksum

  function Word(high: byte, low: byte): u16 { high as int * 256 + low as int }

  /** The bytes as big-endian 16-bit words, an odd last byte padded with a zero. */
  function WordSum(b: Bytes): nat {
    if b == [] then 0
    else if |b| == 1 then Word(b[0], 0)
    else Word(b[0], b[1]) + WordSum(b[2..])
  }

  function PartsSum(parts: seq<Bytes>): nat
    decreases |parts|
  {
    if parts == [] then 0 else PartsSum(parts[..|parts| - 1]) + WordSum(parts[|parts| - 1])
  }

  /** The carries folded back in. The shift sees only the low 32 bits of the total. */
  function Fold(sum: nat): nat
    decreases sum
  {
    if sum <= ONES then sum
    else
      FoldDown(sum);
      Fold(sum % 0x1_0000 + sum % 0x1_0000_0000 / 0x1_0000)
  }

  lemma FoldDown(sum: nat)
    requires sum > ONES
    ensures sum % 0x1_0000 + sum % 0x1_0000_0000 / 0x1_0000 < sum
  {
    var low := sum % 0x1_0000_0000;
    assert low <= sum && low % 0x1_0000 == sum % 0x1_0000;
    assert low == 0x1_0000 * (low / 0x1_0000) + low % 0x1_0000;
  }

  function Checksum(parts: seq<Bytes>): u16 {
    FoldRange(PartsSum(parts));
    ONES - Fold(PartsSum(parts))
  }

  lemma {:induction false} FoldRange(sum: nat)
    ensures Fold(sum) <= ONES
    decreases sum
  {
    if sum > ONES {
      FoldDown(sum);
      FoldRange(sum % 0x1_0000 + sum % 0x1_0000_0000 / 0x1_0000);
    }
  }

  /** Folding keeps the total modulo 65535, and only nothing folds to zero. */
  lemma {:induction false} FoldExact(sum: nat)
    requires sum < 0x1_0000_0000
    ensures Fold(sum) <= ONES && Fold(sum) % ONES == sum % ONES && (Fold(sum) == 0 <==> sum == 0)
    decreases sum
  {
    if sum > ONES {
      var low, high := sum % 0x1_0000, sum / 0x1_0000;
      assert sum == ONES * high + (low + high);
      assert sum % 0x1_0000_0000 / 0x1_0000 == high;
      FoldDown(sum);
      FoldExact(low + high);
      ModShift(low + high, high);
    }
  }

  lemma ModShift(n: nat, k: nat)
    ensures (ONES * k + n) % ONES == n % ONES
  {
  }

  /** The loop over every part, two bytes at a time, then the folding. */
  method SumParts(parts: seq<Bytes>) returns (r: u16)
    ensures r == Checksum(parts)
  {
    var sum: nat := 0;
    for k := 0 to |parts|
      invariant sum == PartsSum(parts[..k])
    {
      assert parts[..k + 1][..k] == parts[..k];
      var bytes := parts[k];
      var i := 0;
      while i + 1 < |bytes|
        invariant i <= |bytes|
        invariant sum + WordSum(bytes[i..]) == PartsSum(parts[..k + 1])
      {
        assert bytes[i..][2..] == bytes[i + 2..];
        sum := sum + Word(bytes[i], bytes[i + 1]);
        i := i + 2;
      }
      if i < |bytes| { sum := sum + Word(bytes[i], 0); }
    }
    assert parts[..|parts|] == parts;
    FoldRange(sum);
    while sum > ONES
      invariant Fold(sum) == Fold(PartsSum(parts))
    {
      FoldDown(sum);
      sum := sum % 0x1_0000 + sum % 0x1_0000_0000 / 0x1_0000;
    }
    r := ONES - sum;
  }

  lemma {:induction false} WordSumConcat(a: Bytes, b: Bytes)
    requires |a| % 2 == 0
    ensures WordSum(a + b) == WordSum(a) + WordSum(b)
    decreases |a|
  {
    if a == [] {
      assert a + b == b;
    } else {
      assert (a + b)[2..] == a[2..] + b;
      WordSumConcat(a[2..], b);
    }
  }

  lemma {:induction false} WordSumBound(b: Bytes)
    ensures WordSum(b) <= 0x8000 * (|b| + 1)
  {
    if |b| > 1 { WordSumBound(b[2..]); }
  }

  /** The complement of a sum, added to it, folds to all ones: what a receiver checks. */
  lemma Complement(sum: nat)
    requires sum + ONES < 0x1_0000_0000
    ensures Fold(sum) <= ONES && Fold(sum + (ONES - Fold(sum))) == ONES
  {
    hide Fold;
    FoldExact(sum);
    var total := sum + (ONES - Fold(sum));
    SameRemainder(sum, Fold(sum));
    FoldExact(total);
    OnlyAllOnes(Fold(total));
  }

  lemma OnlyAllOnes(n: nat)
    requires 0 < n <= ONES && n % ONES == 0
    ensures n == ONES
  {
  }

  lemma SameRemainder(a: nat, b: nat)
    requires b <= ONES && a % ONES == b % ONES
    ensures (a + (ONES - b)) % ONES == 0
  {
  }

  /** Bytes read as one number, the most significant first. */
  function Number(b: Bytes): nat {
    if b == [] then 0 else Number(b[..|b| - 1]) * 256 + b[|b| - 1]
  }

  /** The `n` bytes of a number; what does not fit is lost. */
  function Digits(n: nat, x: nat): (b: Bytes)
    ensures |b| == n
    decreases n, x
  {
    if n == 0 then [] else Digits(n - 1, x / 256) + [x % 256]
  }

  function Limit(n: nat): nat { if n == 0 then 1 else 256 * Limit(n - 1) }

  /** Reading undoes writing, as long as the number fits. */
  lemma {:induction false} DigitsRead(n: nat, x: nat)
    requires x < Limit(n)
    ensures Number(Digits(n, x)) == x
    decreases n
  {
    if n > 0 {
      DigitsRead(n - 1, x / 256);
      var b := Digits(n, x);
      assert b[..|b| - 1] == Digits(n - 1, x / 256) && b[|b| - 1] == x % 256;
    }
  }

  lemma {:induction false} NumberFits(b: Bytes)
    ensures Number(b) < Limit(|b|)
  {
    if b != [] { NumberFits(b[..|b| - 1]); }
  }

  lemma Limits()
    ensures Limit(2) == 0x1_0000 && Limit(4) == 0x1_0000_0000 && Limit(8) == 0x1_0000_0000_0000_0000
  {
    assert Limit(8) == 256 * (256 * (256 * (256 * Limit(4))));
  }

  function U16Bytes(x: u16): (b: Bytes)
    ensures |b| == 2
  {
    [x / 256, x % 256]
  }

  function U32Bytes(x: u32): (b: Bytes)
    ensures |b| == 4
  {
    Digits(4, x)
  }

  function U16At(b: Bytes, at: nat): u16
    requires at + 2 <= |b|
  {
    Word(b[at], b[at + 1])
  }

  function U32At(b: Bytes, at: nat): u32
    requires at + 4 <= |b|
  {
    NumberFits(b[at..at + 4]);
    Limits();
    Number(b[at..at + 4])
  }

  /** With its checksum in place, at an even offset, the whole checks out as zero. */
  lemma SealedChecks(prefix: Bytes, before: Bytes, after: Bytes)
    requires |prefix| % 2 == 0 && |before| % 2 == 0 && |prefix| + |before| + |after| < 0x1_0000
    ensures Checksum([prefix, before + U16Bytes(Checksum([prefix, before + [0, 0] + after])) + after]) == 0
  {
    var sum := WordSum(prefix) + WordSum(before) + WordSum(after);
    FieldSum(prefix, before, after, 0);
    assert U16Bytes(0) == [0, 0];
    WordSumBound(prefix);
    WordSumBound(before);
    WordSumBound(after);
    Complement(sum);
    FieldSum(prefix, before, after, ONES - Fold(sum));
  }

  lemma FieldSum(prefix: Bytes, before: Bytes, after: Bytes, field: u16)
    requires |before| % 2 == 0
    ensures PartsSum([prefix, before + U16Bytes(field) + after]) == WordSum(prefix) + WordSum(before) + field + WordSum(after)
  {
    var bytes := before + U16Bytes(field) + after;
    assert bytes == before + (U16Bytes(field) + after);
    WordSumConcat(before, U16Bytes(field) + after);
    WordSumConcat(U16Bytes(field), after);
    assert U16Bytes(field)[2..] == [];
    PartsTwo(prefix, bytes);
  }

  lemma PartsTwo(a: Bytes, b: Bytes)
    ensures PartsSum([a, b]) == WordSum(a) + WordSum(b)
  {
    assert [a, b][..1] == [a] && [a][..0] == [];
    assert PartsSum([a]) == WordSum(a);
  }

  /** The checksum is zero exactly on the non-zero multiples of 65535. */
  lemma ChecksExactly(sum: nat)
    requires 0 < sum < 0x1_0000_0000
    ensures ONES - Fold(sum) == 0 <==> sum % ONES == 0
  {
    hide Fold;
    FoldExact(sum);
    if Fold(sum) % ONES == 0 { OnlyAllOnes(Fold(sum)); }
  }

  lemma ChecksumIs(parts: seq<Bytes>)
    ensures Checksum(parts) == ONES - Fold(PartsSum(parts))
  {
  }

  /** A change to one word is noticed exactly when it is not between zero and all ones. */
  lemma ChangeNoticed(prefix: Bytes, before: Bytes, after: Bytes, was: u16, now: u16)
    requires |before| % 2 == 0 && |prefix| + |before| + |after| < 0x1_0000
    requires Checksum([prefix, before + U16Bytes(was) + after]) == 0
    requires PartsSum([prefix, before + U16Bytes(now) + after]) > 0
    ensures Checksum([prefix, before + U16Bytes(now) + after]) == 0 <==> was % ONES == now % ONES
  {
    hide *;
    FieldSum(prefix, before, after, was);
    FieldSum(prefix, before, after, now);
    WordSumBound(prefix);
    WordSumBound(before);
    WordSumBound(after);
    var rest := WordSum(prefix) + WordSum(before) + WordSum(after);
    ChecksumIs([prefix, before + U16Bytes(was) + after]);
    ChecksumIs([prefix, before + U16Bytes(now) + after]);
    NeverAllZero(rest + was);
    ChecksExactly(rest + was);
    ChecksExactly(rest + now);
    RemainderMoves(rest, was, now);
  }

  lemma NeverAllZero(sum: nat)
    requires ONES - Fold(sum) == 0
    ensures sum > 0
  {
  }

  lemma RemainderMoves(rest: nat, was: u16, now: u16)
    requires (rest + was) % ONES == 0
    ensures (rest + now) % ONES == 0 <==> was % ONES == now % ONES
  {
  }

  lemma PartsOne(b: Bytes)
    ensures PartsSum([b]) == PartsSum([[], b])
  {
    PartsTwo([], b);
    assert [b][..0] == [];
  }

  lemma U16Reads(b: Bytes, at: nat, x: u16)
    requires at + 2 <= |b| && b[at..at + 2] == U16Bytes(x)
    ensures U16At(b, at) == x
  {
    assert b[at] == b[at..at + 2][0] && b[at + 1] == b[at..at + 2][1];
  }

  lemma U32Reads(b: Bytes, at: nat, x: u32)
    requires at + 4 <= |b| && b[at..at + 4] == U32Bytes(x)
    ensures U32At(b, at) == x
  {
    Limits();
    DigitsRead(4, x);
  }

  /** The bytes as shifts and masks pick them out. */
  lemma U32Shifted(x: u32)
    ensures U32Bytes(x) == [x / 0x100_0000, x / 0x1_0000 % 256, x / 256 % 256, x % 256]
  {
    assert Digits(4, x) == Digits(3, x / 256) + [x % 256];
    assert Digits(3, x / 256) == Digits(2, x / 256 / 256) + [x / 256 % 256];
    assert Digits(2, x / 256 / 256) == Digits(1, x / 256 / 256 / 256) + [x / 256 / 256 % 256];
    assert Digits(1, x / 256 / 256 / 256) == [x / 256 / 256 / 256 % 256];
  }
}
