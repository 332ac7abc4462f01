/**
 Bytes, slices of byte strings, and decimal numerals: the vocabulary shared by
 the bencode grammar, the wire protocol and the tracker URL.
 */
module ByteStrings {

  type Byte = b: int | 0 <= b < 256
  type Bytes = seq<Byte>

  datatype Option<+T> = None | Some(value: T)

  // size_t, uint64_t and int64_t of the platform the program is built for.
  const SIZE_MAX: int := 0xFFFF_FFFF_FFFF_FFFF
  const INT64_MAX: int := 0x7FFF_FFFF_FFFF_FFFF
  const UINT32_MAX: int := 0xFFFF_FFFF

  const ZERO: Byte := 48 // '0'
  const NINE: Byte := 57 // '9'

  /** The bytes of an ASCII text; other characters become question marks. */
  function Text(s: string): (r: Bytes)
    ensures |r| == |s| && forall i | 0 <= i < |s| && s[i] < 128 as char :: r[i] == s[i] as int
  {
    seq(|s|, i requires 0 <= i < |s| => if s[i] < 128 as char then s[i] as int else 63)
  }

  /** The bytes w occupy positions pos onward of data. */
  ghost predicate Has(data: Bytes, pos: nat, w: Bytes) {
    pos + |w| <= |data| && data[pos..pos + |w|] == w
  }

  /** A concatenation occupies a place exactly when its two parts occupy adjacent places. */
  lemma {:induction false} HasConcat(data: Bytes, pos: nat, a: Bytes, b: Bytes)
    ensures Has(data, pos, a + b) <==> Has(data, pos, a) && Has(data, pos + |a|, b)
  {
    if pos + |a| + |b| <= |data| {
      var w := data[pos..pos + |a + b|];
      assert w == data[pos..pos + |a|] + data[pos + |a|..pos + |a| + |b|];
      assert w[..|a|] == data[pos..pos + |a|] && w[|a|..] == data[pos + |a|..pos + |a| + |b|];
      assert (a + b)[..|a|] == a && (a + b)[|a|..] == b;
    }
  }

  lemma {:induction false} HasByte(data: Bytes, pos: nat, b: Byte)
    ensures Has(data, pos, [b]) <==> pos < |data| && data[pos] == b
  {
    if pos < |data| {
      assert data[pos..pos + 1] == [data[pos]];
    }
  }

  lemma {:induction false} HasNothing(data: Bytes, pos: nat)
    ensures Has(data, pos, []) <==> pos <= |data|
  {
    if pos <= |data| {
      assert data[pos..pos] == [];
    }
  }

  lemma {:induction false} HasSnoc(data: Bytes, pos: nat, w: Bytes)
    requires Has(data, pos, w) && pos + |w| < |data|
    ensures Has(data, pos, w + [data[pos + |w|]])
  {
    HasConcat(data, pos, w, [data[pos + |w|]]);
    HasByte(data, pos + |w|, data[pos + |w|]);
  }

  lemma {:induction false} HasSlice(data: Bytes, pos: nat, length: nat)
    requires pos + length <= |data|
    ensures Has(data, pos, data[pos..pos + length])
  {
  }

  lemma {:induction false} HasBound(data: Bytes, pos: nat, w: Bytes)
    requires Has(data, pos, w)
    ensures pos + |w| <= |data|
  {
  }

  lemma {:induction false} HasAt(data: Bytes, pos: nat, w: Bytes, k: nat)
    requires Has(data, pos, w) && k < |w|
    ensures pos + |w| <= |data| && data[pos + k] == w[k]
  {
    assert data[pos..pos + |w|][k] == data[pos + k];
  }

  predicate IsDigit(b: Byte) {
    ZERO <= b <= NINE
  }

  predicate AllDigits(ds: Bytes) {
    forall i | 0 <= i < |ds| :: IsDigit(ds[i])
  }

  /** The number a digit string stands for, leading zeros allowed. */
  function Numeral(ds: Bytes): nat
    requires AllDigits(ds)
  {
    if ds == [] then 0
    else 10 * Numeral(ds[..|ds| - 1]) + (ds[|ds| - 1] - ZERO)
  }

  function Power(base: nat, exponent: nat): nat {
    if exponent == 0 then 1 else base * Power(base, exponent - 1)
  }

  lemma {:induction false} TimesTen(d: int, power: nat)
    ensures 10 * (d * power) == d * (10 * power)
  {
  }

  /** Numerals are decimal and start with the highest digit. */
  lemma {:induction false} NumeralIsPositional(d: Byte, rest: Bytes)
    requires 48 <= d <= 57 && AllDigits(rest)
    ensures AllDigits([d] + rest)
    ensures Numeral([d] + rest) == (d - 48) * Power(10, |rest|) + Numeral(rest)
  {
    var ds := [d] + rest;
    if rest == [] {
      assert ds[..0] == [] && Numeral([]) == 0;
    } else {
      var front, last := rest[..|rest| - 1], rest[|rest| - 1];
      assert ds[..|ds| - 1] == [d] + front && ds[|ds| - 1] == last;
      NumeralIsPositional(d, front);
      assert Power(10, |rest|) == 10 * Power(10, |front|);
      TimesTen(d - 48, Power(10, |front|));
    }
  }

  /** A digit string without superfluous leading zeros. */
  predicate IsCanonical(ds: Bytes) {
    ds != [] && AllDigits(ds) && (ds[0] == ZERO ==> |ds| == 1)
  }

  /** The decimal representation of n. */
  function Decimal(n: nat): (ds: Bytes)
    ensures IsCanonical(ds)
    ensures Numeral(ds) == n
    ensures ds[0] == ZERO <==> n == 0
  {
    if n < 10 then
      assert Numeral([]) == 0;
      [ZERO + n]
    else
      var front := Decimal(n / 10);
      var ds := front + [ZERO + n % 10];
      assert ds[..|ds| - 1] == front;
      ds
  }

  lemma {:induction false} DecimalInjective(n: nat, m: nat)
    requires Decimal(n) == Decimal(m)
    ensures n == m
  {
    assert Numeral(Decimal(n)) == n && Numeral(Decimal(m)) == m;
  }

  /** Decimal is the only canonical numeral of its value. */
  lemma {:induction false} CanonicalIsDecimal(ds: Bytes)
    requires IsCanonical(ds)
    ensures Decimal(Numeral(ds)) == ds
  {
    var front, last := ds[..|ds| - 1], ds[|ds| - 1];
    if |ds| == 1 {
      assert front == [];
      assert ds == [last];
    } else {
      CanonicalIsDecimal(front);
      assert front[0] == ds[0];
      assert Numeral(ds) / 10 == Numeral(front) && Numeral(ds) % 10 == last - ZERO;
      assert ds == front + [last];
    }
  }

  lemma {:induction false} NumeralDropZero(ds: Bytes)
    requires AllDigits(ds) && ds != [] && ds[0] == ZERO
    ensures Numeral(ds) == Numeral(ds[1..])
  {
    if |ds| == 1 {
      assert ds[..0] == [] && ds[1..] == [];
    } else {
      var front := ds[..|ds| - 1];
      NumeralDropZero(front);
      assert front[1..] == ds[1..][..|ds[1..]| - 1];
    }
  }

  /** A numeral is at least as long as the decimal of its value, and equally long only when it is that decimal. */
  lemma {:induction false} NumeralLength(ds: Bytes)
    requires AllDigits(ds) && ds != []
    ensures |Decimal(Numeral(ds))| <= |ds|
    ensures |Decimal(Numeral(ds))| == |ds| <==> IsCanonical(ds)
    ensures IsCanonical(ds) <==> ds == Decimal(Numeral(ds))
  {
    if IsCanonical(ds) {
      CanonicalIsDecimal(ds);
    } else {
      NumeralDropZero(ds);
      NumeralLength(ds[1..]);
    }
  }

  /** Reading more digits never makes the number smaller. */
  lemma {:induction false} NumeralGrows(front: Bytes, ds: Bytes)
    requires AllDigits(ds) && front <= ds
    ensures AllDigits(front) && Numeral(front) <= Numeral(ds)
  {
    assert forall i | 0 <= i < |front| :: front[i] == ds[i];
    if |front| == |ds| {
      assert front == ds;
    } else {
      NumeralGrows(front, ds[..|ds| - 1]);
    }
  }

  lemma {:induction false} NumeralNothing()
    ensures AllDigits([]) && Numeral([]) == 0
  {
  }

  /** Reading one more digit, as the scanning loops do. */
  lemma {:induction false} NumeralSnoc(ds: Bytes, d: Byte)
    requires AllDigits(ds) && IsDigit(d)
    ensures AllDigits(ds + [d]) && Numeral(ds + [d]) == 10 * Numeral(ds) + (d - ZERO)
  {
    assert (ds + [d])[..|ds|] == ds;
  }

  lemma {:induction false} CanonicalSnoc(ds: Bytes, d: Byte)
    requires IsDigit(d)
    requires ds != [] ==> IsCanonical(ds) && ds != [ZERO]
    ensures IsCanonical(ds + [d])
  {
  }

  /** Only a lone zero denotes zero. */
  lemma {:induction false} NumeralZero(ds: Bytes)
    requires IsCanonical(ds)
    ensures Numeral(ds) == 0 <==> ds == [ZERO]
  {
    CanonicalIsDecimal(ds);
  }

  /** A digit run at a fixed place extends no further than the first non-digit. */
  lemma {:induction false} RunIsPrefix(data: Bytes, pos: nat, run: Bytes, ds: Bytes)
    requires AllDigits(run) && Has(data, pos, run)
    requires Has(data, pos, ds)
    requires pos + |ds| < |data| && !IsDigit(data[pos + |ds|])
    ensures run <= ds
  {
    if |run| > |ds| {
      HasAt(data, pos, run, |ds|);
    }
    assert run == data[pos..pos + |ds|][..|run|];
  }

  /** Two digit runs at the same place, each followed by a non-digit, are the same run. */
  lemma {:induction false} SameRun(data: Bytes, pos: nat, ds: Bytes, es: Bytes)
    requires AllDigits(ds) && Has(data, pos, ds)
    requires AllDigits(es) && Has(data, pos, es)
    requires pos + |ds| < |data| && !IsDigit(data[pos + |ds|])
    requires pos + |es| < |data| && !IsDigit(data[pos + |es|])
    ensures ds == es
  {
    RunIsPrefix(data, pos, ds, es);
    RunIsPrefix(data, pos, es, ds);
  }

  /** memcpy into a buffer. */
  method Store(buffer: array<Byte>, at: nat, bytes: Bytes)
    requires at + |bytes| <= buffer.Length
    modifies buffer
    ensures buffer[..at + |bytes|] == old(buffer[..at]) + bytes
  {
    forall k | 0 <= k < |bytes| {
      buffer[at + k] := bytes[k];
    }
  }
}
