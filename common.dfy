/** Pieces of the PHP runtime that the query builder leans on: string truthiness,
    strtolower, integer-to-string casts, implode, array_chunk and ceil of a quotient. */
module Php {

  datatype Option<T> = None | Some(value: T)

  /** A PHP string is falsy exactly when it is "" or "0". */
  predicate Truthy(s: string) {
    s != "" && s != "0"
  }

  function LowerChar(c: char): char {
    if 'A' <= c <= 'Z' then (c as int + 32) as char else c
  }

  /** strtolower (ASCII case mapping, as PHP 8 does it). */
  function Lower(s: string): string {
    seq(|s|, i requires 0 <= i < |s| => LowerChar(s[i]))
  }

  function DigitChar(d: nat): char
    requires d < 10
  {
    "0123456789"[d]
  }

  /** `(string)$n` for a non-negative integer. */
  function NatString(n: nat): (r: string)
    ensures |r| >= 1
    decreases n
  {
    if n < 10 then [DigitChar(n)] else NatString(n / 10) + [DigitChar(n % 10)]
  }

  /** `(string)$i` for any integer. */
  function IntString(i: int): string {
    if i < 0 then "-" + NatString(-i) else NatString(i)
  }

  function DigitValue(c: char): nat {
    if '0' <= c <= '9' then c as int - '0' as int else 0
  }

  /** The integer a decimal numeral denotes, as the store reads an N attribute value. */
  function ParseNat(s: string): nat
    decreases |s|
  {
    if s == [] then 0 else ParseNat(s[..|s| - 1]) * 10 + DigitValue(s[|s| - 1])
  }

  function ParseInt(s: string): int {
    if |s| > 0 && s[0] == '-' then -(ParseNat(s[1..]) as int) else ParseNat(s)
  }

  lemma DigitRoundTrip(d: nat)
    requires d < 10
    ensures DigitValue(DigitChar(d)) == d && '0' <= DigitChar(d) <= '9'
  {
  }

  /** `(string)$n` reads back as `n`, and never starts with a minus sign. */
  lemma {:induction false} NatStringRoundTrip(n: nat)
    ensures ParseNat(NatString(n)) == n && NatString(n)[0] != '-'
    decreases n
  {
    DigitRoundTrip(n % 10);
    if n >= 10 {
      NatStringRoundTrip(n / 10);
      var t := NatString(n / 10) + [DigitChar(n % 10)];
      assert t[..|t| - 1] == NatString(n / 10);
    } else {
      assert NatString(n)[..0] == [];
    }
  }

  /** `(string)$i` reads back as `i`. */
  lemma IntStringRoundTrip(i: int)
    ensures ParseInt(IntString(i)) == i
  {
    if i < 0 {
      var n: nat := -i;
      NatStringRoundTrip(n);
      MinusRoundTrip(NatString(n));
      assert IntString(i) == "-" + NatString(n);
    } else {
      NatStringRoundTrip(i);
      assert IntString(i) == NatString(i);
    }
  }

  /** A numeral after a minus sign reads back negated. */
  lemma MinusRoundTrip(t: string)
    ensures ParseInt("-" + t) == -(ParseNat(t) as int)
  {
    var s := "-" + t;
    assert s[0] == '-' && s[1..] == t;
  }

  /** implode($sep, $parts). */
  function Implode(sep: string, parts: seq<string>): string
    decreases |parts|
  {
    if |parts| == 0 then ""
    else if |parts| == 1 then parts[0]
    else Implode(sep, parts[..|parts| - 1]) + sep + parts[|parts| - 1]
  }

  lemma {:induction false} ImplodeSnoc(sep: string, parts: seq<string>, p: string)
    ensures Implode(sep, parts + [p]) == if parts == [] then p else Implode(sep, parts) + sep + p
  {
    assert (parts + [p])[..|parts|] == parts;
  }

  lemma AppendAssoc<T>(a: seq<T>, b: seq<T>, c: seq<T>)
    ensures a + b + c == a + (b + c)
  {
  }

  /** array_chunk($s, $size): consecutive pieces of `size` elements, the last one possibly shorter. */
  function ArrayChunk<T>(s: seq<T>, size: nat): seq<seq<T>>
    requires size > 0
    decreases |s|
  {
    if s == [] then []
    else if |s| <= size then [s]
    else [s[..size]] + ArrayChunk(s[size..], size)
  }

  function Flatten<T>(ss: seq<seq<T>>): seq<T>
    decreases |ss|
  {
    if ss == [] then [] else ss[0] + Flatten(ss[1..])
  }

  /** Ceiling of `a / b` for a non-negative numerator, as PHP's ceil() of the float quotient. */
  function CeilDiv(a: nat, b: int): (q: int)
    requires b != 0
    ensures b > 0 ==> (q - 1) * b < a <= q * b
    ensures b < 0 ==> q * b <= a < (q - 1) * b
  {
    if b > 0 then
      var q := (a + b - 1) / b;
      assert q * b <= a + b - 1 < q * b + b;
      q
    else
      var q := a / (-b);
      assert q * (-b) <= a < q * (-b) + (-b);
      -q
  }

  lemma {:induction false} ArrayChunkFlatten<T>(s: seq<T>, size: nat)
    requires size > 0
    ensures Flatten(ArrayChunk(s, size)) == s
    decreases |s|
  {
    if s != [] && |s| > size {
      ArrayChunkFlatten(s[size..], size);
      var cs := ArrayChunk(s, size);
      assert cs[1..] == ArrayChunk(s[size..], size);
      assert s[..size] + s[size..] == s;
    }
  }

  lemma MulLe(a: int, b: int, k: nat)
    requires a <= b
    ensures a * k <= b * k
  {
  }

  /** The ceiling of a quotient by a positive divisor is the only integer with its defining bounds. */
  lemma CeilDivUnique(n: nat, size: nat, p: int)
    requires size > 0 && (p - 1) * size < n <= p * size
    ensures CeilDiv(n, size) == p
  {
    var q := CeilDiv(n, size);
    if q < p {
      MulLe(q, p - 1, size);
    } else if p < q {
      MulLe(p, q - 1, size);
    }
  }

  lemma CeilDivStep(n: nat, size: nat)
    requires size > 0 && n > size
    ensures CeilDiv(n, size) == CeilDiv(n - size, size) + 1
  {
    var q' := CeilDiv(n - size, size);
    assert ((q' + 1) - 1) * size < n <= (q' + 1) * size;
    CeilDivUnique(n, size, q' + 1);
  }

  lemma CeilDivOne(n: nat, size: nat)
    requires size > 0 && 0 < n <= size
    ensures CeilDiv(n, size) == 1
  {
    CeilDivUnique(n, size, 1);
  }

  /** There are ceil(|s| / size) chunks. */
  lemma {:induction false} ArrayChunkCount<T>(s: seq<T>, size: nat)
    requires size > 0
    ensures |ArrayChunk(s, size)| == CeilDiv(|s|, size)
    decreases |s|
  {
    if s == [] {
    } else if |s| <= size {
      CeilDivOne(|s|, size);
    } else {
      ArrayChunkCount(s[size..], size);
      CeilDivStep(|s|, size);
    }
  }

  /** Chunk `c` is the slice of `s` from `c * size` to `(c + 1) * size`, cut at the end of `s`;
      so every chunk but the last holds exactly `size` elements, and none is empty. */
  lemma {:induction false} ArrayChunkAt<T>(s: seq<T>, size: nat, c: nat)
    requires size > 0 && c < |ArrayChunk(s, size)|
    ensures c * size < |s|
    ensures ArrayChunk(s, size)[c] == s[c * size .. if (c + 1) * size <= |s| then (c + 1) * size else |s|]
    decreases |s|
  {
    if c > 0 {
      var t := s[size..];
      ArrayChunkAt(t, size, c - 1);
      var d := c - 1;
      assert c * size == d * size + size;
      assert (c + 1) * size == (d + 1) * size + size;
      var hi := if (d + 1) * size <= |t| then (d + 1) * size else |t|;
      assert t[d * size .. hi] == s[d * size + size .. hi + size];
    }
  }

  lemma ArrayChunkSizes<T>(s: seq<T>, size: nat, c: nat)
    requires size > 0 && c < |ArrayChunk(s, size)|
    ensures 0 < |ArrayChunk(s, size)[c]| <= size
    ensures c < |ArrayChunk(s, size)| - 1 ==> |ArrayChunk(s, size)[c]| == size
  {
    ArrayChunkAt(s, size, c);
    ArrayChunkCount(s, size);
    var n := |ArrayChunk(s, size)|;
    assert (c + 1) * size == c * size + size;
    if c < n - 1 {
      MulLe(c + 1, n - 1, size);
    }
  }

  /** Element `j` of chunk `c` is element `c * size + j` of the whole. */
  lemma ArrayChunkIndex<T>(s: seq<T>, size: nat, c: nat, j: nat)
    requires size > 0 && c < |ArrayChunk(s, size)| && j < |ArrayChunk(s, size)[c]|
    ensures c * size + j < |s| && ArrayChunk(s, size)[c][j] == s[c * size + j]
  {
    ArrayChunkAt(s, size, c);
  }
}
