/** Two's-complement conversion between integers and byte strings, most significant byte first. */
module ByteConversions {
  type Byte = x: nat | x < 256

  datatype Result<T> = Ok(value: T) | Err

  function Pow256(n: nat): (p: nat)
    ensures p > 0
  {
    if n == 0 then 1 else 256 * Pow256(n - 1)
  }

  /** The unsigned value of a byte string. */
  function Value(b: seq<Byte>): nat {
    if b == [] then 0 else Value(b[..|b| - 1]) * 256 + b[|b| - 1]
  }

  /** The shortest unsigned byte string of a number; empty for zero. */
  function Bytes(x: nat): seq<Byte> {
    if x == 0 then [] else Bytes(x / 256) + [x % 256]
  }

  function Flip(b: seq<Byte>): (r: seq<Byte>)
    ensures |r| == |b|
  {
    seq(|b|, i requires 0 <= i < |b| => 255 - b[i])
  }

  function Abs(x: int): nat {
    if x < 0 then -x else x
  }

  /** Testing the sign bit and flipping all bits, on bytes as bit vectors. */
  lemma BitOperations(b: bv8)
    ensures (b & 128 != 0) <==> b as nat >= 128
    ensures (b ^ 255) as nat == 255 - b as nat
  {
    assert b ^ 255 == 255 - b;
    assert (255 - b) as nat == 255 - b as nat;
  }

  // ------------------------------------------------------------------ unsigned byte strings

  lemma PowStep(n: nat)
    ensures Pow256(0) == 1 && Pow256(n + 1) == 256 * Pow256(n)
  {
  }

  lemma ValueStep(b: seq<Byte>)
    ensures Value([]) == 0 && (b != [] ==> Value(b) == Value(b[..|b| - 1]) * 256 + b[|b| - 1])
  {
  }

  lemma BytesStep(x: nat)
    ensures Bytes(0) == [] && (x > 0 ==> Bytes(x) == Bytes(x / 256) + [x % 256])
  {
  }

  lemma ScaleUp(a: nat, b: nat, p: nat)
    requires a <= b
    ensures a * p <= b * p
  {
  }

  lemma Associate(a: nat, p: nat)
    ensures a * (256 * p) == (a * p) * 256 && (a + 1) * p == a * p + p
  {
  }

  lemma {:induction false} ValueOfBytes(x: nat)
    ensures Value(Bytes(x)) == x && (x > 0 ==> Bytes(x) != [] && Bytes(x)[0] != 0)
  {
    hide Value, Bytes;
    BytesStep(x);
    ValueStep([]);
    if x > 0 {
      var front := Bytes(x / 256);
      ValueOfBytes(x / 256);
      BytesStep(x / 256);
      ValueStep(front + [x % 256]);
      assert (front + [x % 256])[..|front|] == front;
      assert x / 256 == 0 ==> front == [];
    }
  }

  lemma {:induction false} ValueBounds(b: seq<Byte>)
    ensures Value(b) < Pow256(|b|)
  {
    hide Value, Pow256;
    ValueStep(b);
    PowStep(0);
    if b != [] {
      ValueBounds(b[..|b| - 1]);
      PowStep(|b| - 1);
    }
  }

  lemma {:induction false} ValueHead(b: seq<Byte>)
    requires b != []
    ensures Value(b) == b[0] * Pow256(|b| - 1) + Value(b[1..])
    decreases |b|
  {
    hide Value, Pow256;
    ValueStep(b);
    PowStep(0);
    if |b| == 1 {
      assert b[..0] == [] && b[1..] == [];
    } else {
      var front := b[..|b| - 1];
      ValueHead(front);
      ValueStep(b[1..]);
      assert front[1..] == b[1..][..|b| - 2];
      PowStep(|b| - 2);
      Associate(b[0], Pow256(|b| - 2));
    }
  }

  /** A byte string's value lies in the range its first byte spans. */
  lemma HeadRange(b: seq<Byte>)
    requires b != []
    ensures b[0] * Pow256(|b| - 1) <= Value(b) < (b[0] + 1) * Pow256(|b| - 1)
  {
    hide Value, Pow256;
    ValueHead(b);
    ValueBounds(b[1..]);
    Associate(b[0], Pow256(|b| - 1));
  }

  lemma {:induction false} FlipValue(b: seq<Byte>)
    ensures Value(Flip(b)) == Pow256(|b|) - 1 - Value(b)
    decreases |b|
  {
    hide Value, Pow256;
    ValueStep(b);
    ValueStep(Flip(b));
    PowStep(0);
    if b != [] {
      assert Flip(b)[..|b| - 1] == Flip(b[..|b| - 1]);
      FlipValue(b[..|b| - 1]);
      PowStep(|b| - 1);
    } else {
      assert Flip(b) == [];
    }
  }

  lemma {:induction false} PowMonotone(m: nat, n: nat)
    requires m <= n
    ensures Pow256(m) <= Pow256(n)
    decreases n
  {
    if m < n {
      PowMonotone(m, n - 1);
    }
  }

  /** The length of the shortest byte string of a number is settled by the powers around it. */
  lemma {:induction false} LengthOfBytes(x: nat, k: nat)
    requires k > 0 && Pow256(k - 1) <= x < Pow256(k)
    ensures |Bytes(x)| == k
    decreases k
  {
    hide Bytes, Pow256;
    BytesStep(x);
    BytesStep(0);
    PowStep(0);
    PowStep(k - 1);
    if k > 1 {
      PowStep(k - 2);
      LengthOfBytes(x / 256, k - 1);
    }
  }

  /** The shortest byte string is the only one with its value that does not start with zero. */
  lemma {:induction false} BytesOfValue(b: seq<Byte>)
    requires b == [] || b[0] != 0
    ensures Bytes(Value(b)) == b
    decreases |b|
  {
    hide Bytes, Value;
    BytesStep(0);
    ValueStep(b);
    if b != [] {
      var front := b[..|b| - 1];
      assert Value(b) / 256 == Value(front) && Value(b) % 256 == b[|b| - 1];
      Positive(b);
      BytesStep(Value(b));
      BytesOfValue(front);
    }
  }

  lemma Positive(b: seq<Byte>)
    requires b != [] && b[0] != 0
    ensures Value(b) > 0
  {
    hide Value, Pow256;
    HeadRange(b);
    ScaleUp(1, b[0], Pow256(|b| - 1));
  }

  // ------------------------------------------------------------------ two's complement

  /** The number a non-empty byte string stands for in two's complement. */
  function TwosComplement(b: seq<Byte>): int
    requires b != []
  {
    if b[0] >= 128 then Value(b) - Pow256(|b|) else Value(b)
  }

  /** `n` bytes hold the numbers from -128 * 256^(n-1) to 128 * 256^(n-1) - 1. */
  lemma ComplementRange(b: seq<Byte>)
    requires b != []
    ensures -128 * Pow256(|b| - 1) <= TwosComplement(b) < 128 * Pow256(|b| - 1)
  {
    hide Pow256, Value;
    HeadRange(b);
    var p := Pow256(|b| - 1);
    PowStep(|b| - 1);
    var first: nat := b[0];
    if first >= 128 {
      ScaleUp(128, first, p);
      ScaleUp(first + 1, 256, p);
    } else {
      ScaleUp(first + 1, 128, p);
    }
  }

  /** Flips every bit of every byte. */
  method FlipBytes(b: seq<Byte>) returns (r: seq<Byte>)
    ensures r == Flip(b)
  {
    var flipped := new Byte[|b|](_ => 0);
    for i := 0 to |b|
      invariant flipped[..i] == Flip(b)[..i]
    {
      flipped[i] := 255 - b[i];
    }
    r := flipped[..];
  }

  /** A negative byte string less one keeps its length and a first byte of at least 127. */
  lemma LessOne(b: seq<Byte>)
    requires b != [] && b[0] >= 128
    ensures Value(b) > 0 && |Bytes(Value(b) - 1)| == |b|
  {
    hide Pow256, Value, Bytes;
    HeadRange(b);
    ValueBounds(b);
    ScaleUp(128, b[0], Pow256(|b| - 1));
    LengthOfBytes(Value(b) - 1, |b|);
  }

  /** Dropping a leading zero byte does not change a value. */
  lemma DropZero(b: seq<Byte>)
    requires b != [] && b[0] == 0
    ensures Value(b[1..]) == Value(b)
  {
    ValueHead(b);
  }

  /** Reads a byte string as a two's-complement number. */
  method FromByteArray(bytesIn: seq<Byte>) returns (r: Result<int>)
    ensures bytesIn == [] ==> r == Err
    ensures bytesIn != [] ==> r == Ok(TwosComplement(bytesIn))
  {
    if |bytesIn| == 0 {
      return Err;
    }
    if bytesIn[0] < 128 {
      return Ok(Value(bytesIn));
    }
    LessOne(bytesIn);
    var tmp := Value(bytesIn) - 1;
    var tmpBytes := Bytes(tmp);
    ValueOfBytes(tmp);
    FlipValue(tmpBytes);
    var converted := FlipBytes(tmpBytes);
    if tmpBytes[0] == 255 {
      DropZero(converted);
      converted := converted[1..];
    }
    return Ok(-1 * Value(converted));
  }

  /** The byte string the conversion yields. */
  function ToBytes(x: int): (b: seq<Byte>) {
    var bytes := Bytes(Abs(x));
    if bytes == [] then [0]
    else if x >= 0 then (if bytes[0] >= 128 then [0] + bytes else bytes)
    else Bytes(Value(if bytes[0] >= 128 then [255] + Flip(bytes) else Flip(bytes)) + 1)
  }

  /** Writes a number as a two's-complement byte string. */
  method ToByteArray(x: int) returns (b: seq<Byte>)
    ensures b == ToBytes(x) && b != [] && TwosComplement(b) == x && |b| == Width(x)
  {
    RoundTrip(x);
    var bytes := Bytes(Abs(x));
    if |bytes| == 0 {
      return [0];
    }
    if x >= 0 {
      if bytes[0] >= 128 {
        return [0] + bytes;
      }
      return bytes;
    }
    var flipped := FlipBytes(bytes);
    var converted := if bytes[0] >= 128 then [255] + flipped else flipped;
    return Bytes(Value(converted) + 1);
  }

  /** The number of bytes the conversion uses for a number. */
  ghost function Width(x: int): nat {
    var bytes := Bytes(Abs(x));
    if bytes == [] then 1 else if bytes[0] >= 128 then |bytes| + 1 else |bytes|
  }

  /** A number in the upper half of the `w`-byte range fills `w` bytes and sets the sign bit. */
  lemma UpperHalf(v: nat, w: nat)
    requires w > 0 && 128 * Pow256(w - 1) <= v < Pow256(w)
    ensures |Bytes(v)| == w && Bytes(v)[0] >= 128 && TwosComplement(Bytes(v)) == v - Pow256(w)
  {
    LengthOfBytes(v, w);
    ValueOfBytes(v);
    HeadRange(Bytes(v));
    var first, p := Bytes(v)[0], Pow256(w - 1);
    hide Pow256, Value, Bytes;
    if first < 128 {
      ScaleUp(first + 1, 128, p);
      assert false;
    }
  }

  /** A number below the sign bit of its byte string, or at or above it. */
  lemma SizeOfBytes(m: nat)
    requires m > 0
    ensures var b := Bytes(m);
            && b != [] && m < Pow256(|b|) && m >= Pow256(|b| - 1)
            && (b[0] < 128 <==> m < 128 * Pow256(|b| - 1))
  {
    hide Pow256, Value, Bytes;
    var b := Bytes(m);
    ValueOfBytes(m);
    HeadRange(b);
    ValueBounds(b);
    var p := Pow256(|b| - 1);
    ScaleUp(1, b[0], p);
    if b[0] < 128 {
      ScaleUp(b[0] + 1, 128, p);
    } else {
      ScaleUp(128, b[0], p);
    }
  }

  lemma NegativeForm(x: int)
    requires x < 0
    ensures Pow256(Width(x)) > Abs(x) && ToBytes(x) == Bytes(Pow256(Width(x)) - Abs(x))
    ensures Pow256(Width(x)) - Abs(x) >= 128 * Pow256(Width(x) - 1)
  {
    hide Pow256, Value, Bytes, Flip;
    var m := Abs(x);
    var b := Bytes(m);
    SizeOfBytes(m);
    ValueOfBytes(m);
    FlipValue(b);
    PowStep(|b| - 1);
    PowStep(|b|);
    if b[0] >= 128 {
      var c := [255] + Flip(b);
      ValueHead(c);
      assert c[1..] == Flip(b) && c[0] == 255 && |c| - 1 == |b|;
    }
  }

  /** Reading back what was written gives the number again. */
  lemma RoundTrip(x: int)
    ensures ToBytes(x) != [] && TwosComplement(ToBytes(x)) == x && |ToBytes(x)| == Width(x)
  {
    ValueOfBytes(Abs(x));
    if x > 0 {
      var b := Bytes(x);
      if b[0] >= 128 {
        DropZero([0] + b);
        assert ([0] + b)[1..] == b;
      }
    } else if x < 0 {
      NegativeForm(x);
      UpperHalf(Pow256(Width(x)) - Abs(x), Width(x));
    }
  }

  /** The numbers -128 * 256^k. */
  ghost predicate Edge(x: int) {
    x < 0 && Abs(x) == 128 * Pow256(|Bytes(Abs(x))| - 1)
  }

  lemma EdgeIs(x: int, k: nat)
    ensures x == -128 * Pow256(k) ==> Edge(x) && Width(x) == k + 2
    ensures Edge(x) ==> |Bytes(Abs(x))| >= 1 && x == -128 * Pow256(|Bytes(Abs(x))| - 1)
  {
    if x == -128 * Pow256(k) {
      LengthOfBytes(Abs(x), k + 1);
      SizeOfBytes(Abs(x));
    }
    ValueOfBytes(Abs(x));
  }

  /** No shorter byte string stands for the number, except at the edge of a range. */
  lemma Minimal(x: int, b: seq<Byte>)
    requires b != [] && TwosComplement(b) == x
    ensures |b| >= Width(x) || (Edge(x) && |b| == Width(x) - 1)
  {
    var m := Abs(x);
    if m > 0 {
      var n := |Bytes(m)|;
      SizeOfBytes(m);
      ComplementRange(b);
      assert Pow256(|b|) == 256 * Pow256(|b| - 1);
      hide Bytes, Value, TwosComplement;
      if |b| < n {
        PowMonotone(|b|, n - 1);
      }
      if |b| == n && Bytes(m)[0] >= 128 {
        assert m == 128 * Pow256(n - 1);
      }
    }
  }

  function Zeros(k: nat): seq<Byte> {
    seq(k, _ => 0)
  }

  lemma {:induction false} ZerosValue(k: nat)
    ensures Value(Zeros(k)) == 0
  {
    if k > 0 {
      assert Zeros(k)[..k - 1] == Zeros(k - 1);
      ZerosValue(k - 1);
    }
  }

  lemma EdgeValue(k: nat)
    ensures Value([128] + Zeros(k)) == 128 * Pow256(k) && Pow256(k + 1) == 256 * Pow256(k)
  {
    var b := [128] + Zeros(k);
    ValueHead(b);
    assert b[1..] == Zeros(k);
    ZerosValue(k);
  }

  /** At the edge there is a byte string one byte shorter than the one the conversion yields. */
  lemma ShorterAtEdge(k: nat)
    ensures var x, b := -128 * Pow256(k), [128] + Zeros(k);
            TwosComplement(b) == x && |b| == |ToBytes(x)| - 1
  {
    var p: int := Pow256(k);
    var x, b := -128 * p, [128] + Zeros(k);
    EdgeValue(k);
    hide Pow256, Value, Width, ToBytes, Edge;
    assert |b| == k + 1 && b[0] == 128;
    assert TwosComplement(b) == 128 * p - 256 * p;
    EdgeIs(x, k);
    RoundTrip(x);
  }
}
