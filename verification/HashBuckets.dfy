/**
  The local embedding: tokens and token pairs are hashed into the slots of a vector, which is then normalised;
  and the compression of a longer vector into slot averages.
 */
module HashBuckets {
  import opened NewtonRoot

  const DEFAULT_DIMENSION := 8
  const MAX_DIMENSION := 4096

  type Byte = b: int | 0 <= b < 256

  function NormalizeDimension(v: int): (d: nat)
    ensures 1 <= d <= MAX_DIMENSION && (1 <= v <= MAX_DIMENSION ==> d == v)
  {
    if v <= 0 then DEFAULT_DIMENSION else if v > MAX_DIMENSION then MAX_DIMENSION else v
  }

  /** A dimension out of range falls back to 8 below and to 4096 above. */
  lemma DimensionLaw(v: int)
    ensures NormalizeDimension(v) == if v < 1 then 8 else if v < 4096 then v else 4096
  {}

  // ---------------------------------------------------------------- shift and or

  function Power2(k: nat): (p: nat)
    ensures p >= 1
  {
    if k == 0 then 1 else 2 * Power2(k - 1)
  }

  function ShiftLeft(x: nat, k: nat): nat {
    x * Power2(k)
  }

  /** Bitwise or. */
  function Or(x: nat, y: nat): nat
    decreases x + y
  {
    if x == 0 && y == 0 then 0
    else 2 * Or(x / 2, y / 2) + if x % 2 == 1 || y % 2 == 1 then 1 else 0
  }

  /** Or adds when the low bits of one are free for the other. */
  lemma {:induction false} OrAdds(x: nat, k: nat, y: nat)
    requires y < Power2(k)
    ensures Or(ShiftLeft(x, k), y) == x * Power2(k) + y
    decreases k
  {
    if k == 0 {
      OrWithZero(x);
    } else {
      var high := x * Power2(k - 1);
      assert ShiftLeft(x, k) == 2 * high;
      assert y / 2 < Power2(k - 1);
      OrAdds(x, k - 1, y / 2);
      OrEven(high, y);
    }
  }

  lemma OrEven(high: nat, y: nat)
    ensures Or(2 * high, y) == 2 * Or(high, y / 2) + y % 2
  {
    assert (2 * high) / 2 == high && (2 * high) % 2 == 0;
  }

  lemma {:induction false} OrWithZero(x: nat)
    ensures Or(x, 0) == x
  {
    if x > 0 {
      OrWithZero(x / 2);
    }
  }

  // ---------------------------------------------------------------- the hash bucket

  function BigEndian(digest: seq<Byte>): nat {
    if |digest| == 0 then 0 else BigEndian(digest[..|digest| - 1]) * 256 + digest[|digest| - 1]
  }

  /** The bytes are the digits of the value, to the base 256. */
  lemma {:induction false} DigitsOf(digest: seq<Byte>)
    ensures BigEndian(digest) < Power2(8 * |digest|)
    ensures |digest| > 0 ==>
              BigEndian(digest) % 256 == digest[|digest| - 1] &&
              BigEndian(digest) / 256 == BigEndian(digest[..|digest| - 1])
  {
    if |digest| > 0 {
      var n := |digest| - 1;
      DigitsOf(digest[..n]);
      Power2Adds(8 * n, 8);
      Powers();
      LessTimes(BigEndian(digest[..n]) + 1, Power2(8 * n), 256);
    }
  }

  /** The loop over the digest is the value of the digest modulo the dimension. */
  method HashBucket(digest: seq<Byte>, dimension: int) returns (bucket: nat)
    ensures bucket == BigEndian(digest) % NormalizeDimension(dimension)
  {
    var d := NormalizeDimension(dimension);
    bucket := 0;
    for i := 0 to |digest|
      invariant bucket == BigEndian(digest[..i]) % d
    {
      assert digest[..i + 1][..i] == digest[..i];
      HornerStep(digest[..i], digest[i], d);
      bucket := Or(ShiftLeft(bucket, 8), digest[i]) % d;
    }
    assert digest[..|digest|] == digest;
  }

  /** Reducing at every byte gives the same remainder, and nothing on the way reaches 2^20. */
  lemma HornerStep(high: seq<Byte>, b: Byte, d: nat)
    requires 1 <= d <= MAX_DIMENSION
    ensures Or(ShiftLeft(BigEndian(high) % d, 8), b) < Power2(20)
    ensures Or(ShiftLeft(BigEndian(high) % d, 8), b) % d == BigEndian(high + [b]) % d
  {
    var v := BigEndian(high);
    Powers();
    OrAdds(v % d, 8, b);
    LessTimes(v % d, 4095, 256);
    assert (high + [b])[..|high|] == high;
    ReduceEarly(v, b, d);
  }

  lemma {:induction false} Power2Adds(a: nat, b: nat)
    ensures Power2(a + b) == Power2(a) * Power2(b)
  {
    if a > 0 {
      Power2Adds(a - 1, b);
    }
  }

  lemma Powers()
    ensures Power2(8) == 256 && Power2(20) == 1048576
  {
    assert Power2(2) == 4;
    Power2Adds(2, 2);
    Power2Adds(4, 4);
    Power2Adds(4, 8);
    Power2Adds(12, 8);
  }

  lemma ReduceEarly(v: nat, b: nat, d: nat)
    requires d > 0
    ensures ((v % d) * 256 + b) % d == (v * 256 + b) % d
  {
    var q := v / d;
    assert v == q * d + v % d;
    AddMultiple((v % d) * 256 + b, q * 256, d);
    assert (v % d) * 256 + b + (q * 256) * d == v * 256 + b;
  }

  lemma AddMultiple(x: nat, k: nat, d: nat)
    requires d > 0
    ensures (x + k * d) % d == x % d
  {
    var q := x / d;
    assert x + k * d == (q + k) * d + x % d;
    Remainder(x + k * d, q + k, x % d, d);
  }

  lemma Remainder(n: nat, q: nat, r: nat, d: nat)
    requires r < d && n == q * d + r
    ensures n % d == r
  {
    var p := n / d;
    assert n == p * d + n % d;
    assert (p - q) * d == r - n % d && (q - p) * d == n % d - r;
    if p > q {
      LessTimes(1, p - q, d);
    } else if p < q {
      LessTimes(1, q - p, d);
    }
  }

  lemma LessTimes(a: int, b: int, d: nat)
    requires a <= b
    ensures a * d <= b * d
  {}

  // ---------------------------------------------------------------- slots

  function Sum(s: seq<real>): real {
    if |s| == 0 then 0.0 else Sum(s[..|s| - 1]) + s[|s| - 1]
  }

  function Zeros(d: nat): seq<real> {
    seq(d, _ => 0.0)
  }

  function Bump(s: seq<real>, k: nat, w: real): (r: seq<real>)
    requires k < |s|
    ensures |r| == |s|
  {
    s[k := s[k] + w]
  }

  lemma {:induction false} BumpSum(s: seq<real>, k: nat, w: real)
    requires k < |s|
    ensures Sum(Bump(s, k, w)) == Sum(s) + w
  {
    var n := |s| - 1;
    if k < n {
      BumpSum(s[..n], k, w);
      assert Bump(s, k, w)[..n] == Bump(s[..n], k, w);
    } else {
      assert Bump(s, k, w)[..n] == s[..n];
    }
  }

  lemma {:induction false} ZerosSum(d: nat)
    ensures Sum(Zeros(d)) == 0.0
  {
    if d > 0 {
      ZerosSum(d - 1);
      assert Zeros(d)[..d - 1] == Zeros(d - 1);
    }
  }

  // ---------------------------------------------------------------- the local embedding

  /**
    What the embedding takes from its surroundings: the digest of a text, whether it holds a digit, and its
    length in bytes.
   */
  datatype Text = Text(digest: string -> seq<Byte>, hasDigit: string -> bool, bytes: string -> nat)

  function BucketOf(t: Text, text: string, d: nat): (k: nat)
    requires d > 0
    ensures k < d
  {
    BigEndian(t.digest(text)) % d
  }

  function Weight(t: Text, token: string): (w: real)
    ensures w >= 1.0
  {
    1.0 + (if t.bytes(token) >= 6 then 0.25 else 0.0) + if t.hasDigit(token) then 0.15 else 0.0
  }

  /** A token weighs 1, a quarter more if it is long, and 0.15 more if it holds a digit. */
  lemma WeightLaw(t: Text, token: string)
    ensures t.bytes(token) > 5 && t.hasDigit(token) ==> Weight(t, token) == 1.4
    ensures t.bytes(token) > 5 && !t.hasDigit(token) ==> Weight(t, token) == 1.25
    ensures t.bytes(token) <= 5 && t.hasDigit(token) ==> Weight(t, token) == 1.15
    ensures t.bytes(token) <= 5 && !t.hasDigit(token) ==> Weight(t, token) == 1.0
    ensures Pair([token, "x"], 0) == token + " x"
  {}

  function Pair(tokens: seq<string>, i: nat): string
    requires i + 1 < |tokens|
  {
    tokens[i] + " " + tokens[i + 1]
  }

  /** The vector after the first tokens, and the pairs they open. */
  function Slots(t: Text, tokens: seq<string>, d: nat, n: nat): (s: seq<real>)
    requires d > 0 && n <= |tokens|
    ensures |s| == d
  {
    if n == 0 then Zeros(d)
    else
      var s := Bump(Slots(t, tokens, d, n - 1), BucketOf(t, tokens[n - 1], d), Weight(t, tokens[n - 1]));
      if n < |tokens| then Bump(s, BucketOf(t, Pair(tokens, n - 1), d), 0.5) else s
  }

  method LocalEmbed(t: Text, tokens: seq<string>, dimension: int) returns (vec: array<real>)
    ensures fresh(vec) && vec.Length == NormalizeDimension(dimension)
    ensures vec[..] == Normalized(Slots(t, tokens, NormalizeDimension(dimension), |tokens|))
  {
    var d := NormalizeDimension(dimension);
    vec := new real[d](_ => 0.0);
    assert vec[..] == Zeros(d);
    if |tokens| == 0 {
      ZerosSquares(d);
      return;
    }
    AddTokens(vec, t, tokens);
    Normalize(vec);
  }

  method AddTokens(vec: array<real>, t: Text, tokens: seq<string>)
    requires 1 <= vec.Length <= MAX_DIMENSION && vec[..] == Zeros(vec.Length)
    modifies vec
    ensures vec[..] == Slots(t, tokens, vec.Length, |tokens|)
  {
    for i := 0 to |tokens|
      invariant vec[..] == Slots(t, tokens, vec.Length, i)
    {
      AddToken(vec, t, tokens, i);
    }
  }

  /** A token into its slot, and the pair it opens into the pair's. */
  method AddToken(vec: array<real>, t: Text, tokens: seq<string>, i: nat)
    requires 1 <= vec.Length <= MAX_DIMENSION && i < |tokens| && vec[..] == Slots(t, tokens, vec.Length, i)
    modifies vec
    ensures vec[..] == Slots(t, tokens, vec.Length, i + 1)
  {
    var weight := WeightOf(t, tokens[i]);
    AddHashed(vec, t, tokens[i], weight);
    if i + 1 < |tokens| {
      AddHashed(vec, t, Pair(tokens, i), 0.5);
    }
  }

  method WeightOf(t: Text, token: string) returns (weight: real)
    ensures weight == Weight(t, token)
  {
    weight := 1.0;
    if t.bytes(token) >= 6 {
      weight := weight + 0.25;
    }
    if t.hasDigit(token) {
      weight := weight + 0.15;
    }
  }

  method AddHashed(vec: array<real>, t: Text, text: string, w: real)
    requires 1 <= vec.Length <= MAX_DIMENSION
    modifies vec
    ensures vec[..] == Bump(old(vec[..]), BucketOf(t, text, vec.Length), w)
  {
    var bucket := HashBucket(t.digest(text), vec.Length);
    vec[bucket] := vec[bucket] + w;
  }

  lemma ZerosSquares(d: nat)
    ensures SumOfSquares(Zeros(d)) == 0.0
  {
    ZeroVectorIff(Zeros(d));
  }

  /** What one slot collects: the weights of the tokens and half a point for every pair that hash to it. */
  function Collected(t: Text, tokens: seq<string>, d: nat, n: nat, k: nat): real
    requires d > 0 && n <= |tokens|
  {
    if n == 0 then 0.0
    else
      Collected(t, tokens, d, n - 1, k)
      + (if BucketOf(t, tokens[n - 1], d) == k then Weight(t, tokens[n - 1]) else 0.0)
      + if n < |tokens| && BucketOf(t, Pair(tokens, n - 1), d) == k then 0.5 else 0.0
  }

  lemma {:induction false} SlotCollects(t: Text, tokens: seq<string>, d: nat, n: nat, k: nat)
    requires d > 0 && n <= |tokens| && k < d
    ensures Slots(t, tokens, d, n)[k] == Collected(t, tokens, d, n, k)
  {
    if n > 0 {
      SlotCollects(t, tokens, d, n - 1, k);
    }
  }

  function Weights(t: Text, tokens: seq<string>): real {
    if |tokens| == 0 then 0.0 else Weights(t, tokens[..|tokens| - 1]) + Weight(t, tokens[|tokens| - 1])
  }

  /** Nothing is lost to collisions: the slots hold all weights, and half a point for every adjacent pair. */
  lemma {:induction false} SlotsConserve(t: Text, tokens: seq<string>, d: nat, n: nat)
    requires d > 0 && n <= |tokens|
    ensures Sum(Slots(t, tokens, d, n)) ==
            Weights(t, tokens[..n]) + 0.5 * (if n < |tokens| || n == 0 then n else n - 1) as real
  {
    if n == 0 {
      ZerosSum(d);
    } else {
      SlotsConserve(t, tokens, d, n - 1);
      var before, k := Slots(t, tokens, d, n - 1), BucketOf(t, tokens[n - 1], d);
      BumpSum(before, k, Weight(t, tokens[n - 1]));
      if n < |tokens| {
        BumpSum(Bump(before, k, Weight(t, tokens[n - 1])), BucketOf(t, Pair(tokens, n - 1), d), 0.5);
      }
      assert tokens[..n][..n - 1] == tokens[..n - 1];
    }
  }

  lemma {:induction false} CollectedGrows(t: Text, tokens: seq<string>, d: nat, n: nat, k: nat)
    requires d > 0 && n <= |tokens| && k < d
    ensures Collected(t, tokens, d, n, k) >= 0.0
    ensures n > 0 && BucketOf(t, tokens[0], d) == k ==> Collected(t, tokens, d, n, k) >= 1.0
  {
    if n > 0 {
      CollectedGrows(t, tokens, d, n - 1, k);
    }
  }

  /** A text with a token never embeds to the zero vector, and no slot is negative. */
  lemma LocalNonZero(t: Text, tokens: seq<string>, d: nat)
    requires d > 0 && |tokens| > 0
    ensures SumOfSquares(Slots(t, tokens, d, |tokens|)) > 0.0
    ensures forall k :: 0 <= k < d ==> Slots(t, tokens, d, |tokens|)[k] >= 0.0
    ensures SumOfSquares(Normalized(Slots(t, tokens, d, |tokens|))) <= 1.0
  {
    var s := Slots(t, tokens, d, |tokens|);
    forall k: nat | k < d
      ensures s[k] >= 0.0 && (BucketOf(t, tokens[0], d) == k ==> s[k] >= 1.0)
    {
      SlotCollects(t, tokens, d, |tokens|, k);
      CollectedGrows(t, tokens, d, |tokens|, k);
    }
    assert s[BucketOf(t, tokens[0], d)] != 0.0;
    ZeroVectorIff(s);
    NormBounds(s);
  }

  // ---------------------------------------------------------------- compression

  /** Sums of the first values, slot by slot. */
  function SlotSums(values: seq<real>, d: nat, n: nat): (s: seq<real>)
    requires d > 0 && n <= |values|
    ensures |s| == d
  {
    if n == 0 then Zeros(d) else Bump(SlotSums(values, d, n - 1), (n - 1) % d, values[n - 1])
  }

  function SlotCounts(d: nat, n: nat): (c: seq<nat>)
    requires d > 0
    ensures |c| == d
  {
    if n == 0 then seq(d, _ => 0)
    else
      var c := SlotCounts(d, n - 1);
      c[(n - 1) % d := c[(n - 1) % d] + 1]
  }

  function Average(sum: real, count: nat): real {
    if count > 0 then sum / count as real else sum
  }

  function Averages(sums: seq<real>, counts: seq<nat>): (r: seq<real>)
    requires |sums| == |counts|
    ensures |r| == |sums|
  {
    seq(|sums|, i requires 0 <= i < |sums| => Average(sums[i], counts[i]))
  }

  function Compressed(values: seq<real>, d: nat): seq<real>
    requires d > 0
  {
    Averages(SlotSums(values, d, |values|), SlotCounts(d, |values|))
  }

  method CompressEmbedding(values: seq<real>, dimension: int) returns (out: array<real>)
    ensures fresh(out)
    ensures out[..] == if dimension <= 0 then [] else Normalized(Compressed(values, dimension))
  {
    if dimension <= 0 {
      out := new real[0];
      return;
    }
    out := new real[dimension](_ => 0.0);
    var counts := new nat[dimension](_ => 0);
    assert out[..] == Zeros(dimension);
    if |values| == 0 {
      ZerosSquares(dimension);
      assert Compressed(values, dimension) == Zeros(dimension);
      return;
    }
    for i := 0 to |values|
      invariant out[..] == SlotSums(values, dimension, i) && counts[..] == SlotCounts(dimension, i)
    {
      var slot := i % dimension;
      out[slot] := out[slot] + values[i];
      counts[slot] := counts[slot] + 1;
    }
    Divide(out, counts);
    Normalize(out);
  }

  method Divide(out: array<real>, counts: array<nat>)
    requires out.Length == counts.Length
    modifies out
    ensures out[..] == Averages(old(out[..]), old(counts[..]))
  {
    for i := 0 to out.Length
      invariant counts[..] == old(counts[..])
      invariant forall k :: 0 <= k < i ==> out[k] == Average(old(out[k]), counts[k])
      invariant forall k :: i <= k < out.Length ==> out[k] == old(out[k])
    {
      if counts[i] > 0 {
        out[i] := out[i] / counts[i] as real;
      }
    }
  }

  /** A slot holds every d-th value: the counts are as even as they can be. */
  lemma {:induction false} CountIs(d: nat, n: nat, k: nat)
    requires d > 0 && k < d
    ensures k + (SlotCounts(d, n)[k] - 1) * d < n <= k + SlotCounts(d, n)[k] * d
  {
    if n > 0 {
      CountIs(d, n - 1, k);
      var c := SlotCounts(d, n - 1)[k];
      if (n - 1) % d == k {
        LastOfSlot(n - 1, k, c, d);
      } else {
        NotLastOfSlot(n - 1, k, c, d);
      }
    }
  }

  lemma LastOfSlot(i: nat, k: nat, c: nat, d: nat)
    requires k < d && i % d == k && k + (c - 1) * d < i <= k + c * d
    ensures i == k + c * d
  {
    var q := i / d;
    assert i == q * d + k && (c + 1) * d == c * d + d;
    if q < c {
      LessTimes(q, c - 1, d);
    } else if q > c {
      LessTimes(c + 1, q, d);
    }
  }

  lemma NotLastOfSlot(i: nat, k: nat, c: nat, d: nat)
    requires k < d && i % d != k && i <= k + c * d
    ensures i + 1 <= k + c * d
  {
    if i == k + c * d {
      Remainder(i, c, k, d);
    }
  }

  function WeightedSum(r: seq<real>, counts: seq<nat>): real
    requires |r| == |counts|
  {
    if |r| == 0 then 0.0
    else WeightedSum(r[..|r| - 1], counts[..|r| - 1]) + r[|r| - 1] * counts[|r| - 1] as real
  }

  /** Averages times counts give back the sums, where empty slots hold nothing. */
  lemma {:induction false} AveragesRestore(sums: seq<real>, counts: seq<nat>)
    requires |sums| == |counts| && forall k :: 0 <= k < |sums| && counts[k] == 0 ==> sums[k] == 0.0
    ensures WeightedSum(Averages(sums, counts), counts) == Sum(sums)
  {
    var n := |sums| - 1;
    if |sums| > 0 {
      AveragesRestore(sums[..n], counts[..n]);
      assert Averages(sums, counts)[..n] == Averages(sums[..n], counts[..n]);
    }
  }

  lemma {:induction false} EmptySlotsZero(values: seq<real>, d: nat, n: nat, k: nat)
    requires d > 0 && n <= |values| && k < d && SlotCounts(d, n)[k] == 0
    ensures SlotSums(values, d, n)[k] == 0.0
  {
    if n > 0 {
      EmptySlotsZero(values, d, n - 1, k);
    }
  }

  lemma {:induction false} SlotSumsTotal(values: seq<real>, d: nat, n: nat)
    requires d > 0 && n <= |values|
    ensures Sum(SlotSums(values, d, n)) == Sum(values[..n])
  {
    if n == 0 {
      ZerosSum(d);
    } else {
      SlotSumsTotal(values, d, n - 1);
      BumpSum(SlotSums(values, d, n - 1), (n - 1) % d, values[n - 1]);
      assert values[..n][..n - 1] == values[..n - 1];
    }
  }

  /** Compression conserves the total: averages weighted with their counts add up to the original values. */
  lemma CompressionConserves(values: seq<real>, d: nat)
    requires d > 0
    ensures WeightedSum(Compressed(values, d), SlotCounts(d, |values|)) == Sum(values)
  {
    forall k: nat | k < d && SlotCounts(d, |values|)[k] == 0
      ensures SlotSums(values, d, |values|)[k] == 0.0
    {
      EmptySlotsZero(values, d, |values|, k);
    }
    AveragesRestore(SlotSums(values, d, |values|), SlotCounts(d, |values|));
    SlotSumsTotal(values, d, |values|);
    assert values[..|values|] == values;
  }
}
