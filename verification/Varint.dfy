// LEB128 varints and columns of them (src/pmtiles.rs).

module Varint {
  import opened Words

  datatype Error =
    | VarintPastEnd            // ran past the end of the directory
    | VarintTooLong            // too long to be a u64
    | ImplausibleCount
    | FirstEntryContiguous
    | Unreadable               // not gzip, or outside the file

  datatype Decoded<+T> = Ok(value: T, pos: nat) | Err(error: Error)

  function Encode(v: nat): (s: Bytes)
    ensures |s| >= 1
  {
    if v < 0x80 then [v] else [v % 0x80 + 0x80] + Encode(v / 0x80)
  }

  // The loop of `read_varint`, from some shift on. Payload bits shifted past bit
  // 63 are lost; the others are new bits of the result, so `|=` adds them.
  function DecodeFrom(buf: Bytes, pos: nat, shift: nat, result: int): Decoded<int>
    decreases |buf| - pos
  {
    if pos >= |buf| then Err(VarintPastEnd)
    else
      var next := result + Wrap64((buf[pos] % 0x80) * Pow2(shift));
      if buf[pos] < 0x80 then Ok(next, pos + 1)
      else if shift + 7 > 63 then Err(VarintTooLong)
      else DecodeFrom(buf, pos + 1, shift + 7, next)
  }

  // A varint is read inside the buffer, and its value is a u64.
  function Decode(buf: Bytes, pos: nat): (r: Decoded<int>)
    ensures r.Ok? ==> pos < r.pos <= |buf| && 0 <= r.value < TWO_TO_THE_64
  {
    DecodeFromStays(buf, pos, 0, 0);
    DecodeFrom(buf, pos, 0, 0)
  }

  // A piece of a buffer, in place.
  predicate At(buf: Bytes, pos: nat, piece: Bytes) {
    pos + |piece| <= |buf| && forall i {:trigger piece[i]} :: 0 <= i < |piece| ==> buf[pos + i] == piece[i]
  }

  lemma AtConcat(buf: Bytes, pos: nat, a: Bytes, b: Bytes)
    requires At(buf, pos, a + b)
    ensures At(buf, pos, a) && At(buf, pos + |a|, b)
  {
    forall i | 0 <= i < |a| ensures buf[pos + i] == a[i] {
      assert (a + b)[i] == a[i];
    }
    forall i | 0 <= i < |b| ensures buf[pos + |a| + i] == b[i] {
      assert (a + b)[|a| + i] == b[i];
    }
  }

  lemma AtHalves(a: Bytes, b: Bytes)
    ensures At(a + b, 0, a) && At(a + b, |a|, b)
  {}

  lemma PieceBelow(v: int, b: int, m: int)
    requires 0 <= b <= v && m >= 1
    ensures 0 <= b * m <= v * m
  {
    assert (v - b) * m >= 0;
  }

  lemma SplitProduct(v: nat, m: int)
    requires m >= 1
    ensures 0 <= (v / 0x80) * (0x80 * m) <= v * m
    ensures 0 <= (v % 0x80) * m <= v * m
    ensures (v / 0x80) * (0x80 * m) + (v % 0x80) * m == v * m
  {
    var q, r := v / 0x80, v % 0x80;
    assert v * m == (0x80 * q) * m + r * m;
    assert (0x80 * q) * m == q * (0x80 * m);
    PieceBelow(v, r, m);
    PieceBelow(v, 0x80 * q, m);
  }

  lemma SevenMoreBits(v: nat, shift: nat)
    requires v >= 0x80 && v * Pow2(shift) < TWO_TO_THE_64
    ensures shift + 7 <= 63 && Pow2(shift + 7) == 0x80 * Pow2(shift)
  {
    Pow2Add(7, shift);
    Pow2Positive(shift);
    PieceBelow(v, 0x80, Pow2(shift));
    Pow2Values();
    if shift + 7 >= 64 { Pow2Monotone(64, shift + 7); }
  }

  // The bytes of an encoding of more than one byte.
  lemma LeadingByte(buf: Bytes, pos: nat, v: nat)
    requires v >= 0x80 && At(buf, pos, Encode(v))
    ensures pos < |buf| && buf[pos] == v % 0x80 + 0x80
    ensures At(buf, pos + 1, Encode(v / 0x80)) && |Encode(v)| == 1 + |Encode(v / 0x80)|
  {
    AtConcat(buf, pos, [v % 0x80 + 0x80], Encode(v / 0x80));
    assert buf[pos] == [v % 0x80 + 0x80][0];
  }

  lemma LastByte(buf: Bytes, pos: nat, v: nat, shift: nat, result: int)
    requires v < 0x80 && At(buf, pos, [v]) && v * Pow2(shift) < TWO_TO_THE_64
    ensures DecodeFrom(buf, pos, shift, result) == Ok(result + v * Pow2(shift), pos + 1)
  {
    Pow2Positive(shift);
    assert buf[pos] == [v][0];
    PieceBelow(v, v, Pow2(shift));
  }

  lemma NotLastByte(buf: Bytes, pos: nat, b: nat, shift: nat, result: int)
    requires b < 0x80 && pos < |buf| && buf[pos] == b + 0x80
    requires 0 <= b * Pow2(shift) < TWO_TO_THE_64 && shift + 7 <= 63
    ensures DecodeFrom(buf, pos, shift, result) == DecodeFrom(buf, pos + 1, shift + 7, result + b * Pow2(shift))
  {}

  lemma {:induction false} DecodeOfEncodeFrom(buf: Bytes, pos: nat, v: nat, shift: nat, result: int)
    requires At(buf, pos, Encode(v)) && v * Pow2(shift) < TWO_TO_THE_64
    ensures DecodeFrom(buf, pos, shift, result) == Ok(result + v * Pow2(shift), pos + |Encode(v)|)
    decreases v
  {
    if v < 0x80 {
      LastByte(buf, pos, v, shift, result);
    } else {
      LeadingByte(buf, pos, v);
      SevenMoreBits(v, shift);
      Pow2Positive(shift);
      SplitProduct(v, Pow2(shift));
      NotLastByte(buf, pos, v % 0x80, shift, result);
      DecodeOfEncodeFrom(buf, pos + 1, v / 0x80, shift + 7, result + (v % 0x80) * Pow2(shift));
    }
  }

  // Wherever an encoded u64 stands in a buffer, reading it back gives the value
  // and stops right behind it.
  lemma DecodeOfEncode(buf: Bytes, pos: nat, v: u64)
    requires At(buf, pos, Encode(v))
    ensures Decode(buf, pos) == Ok(v, pos + |Encode(v)|)
  {
    DecodeOfEncodeFrom(buf, pos, v, 0, 0);
  }

  lemma {:induction false} DecodeFromStays(buf: Bytes, pos: nat, shift: nat, result: int)
    requires shift <= 63 && 0 <= result < Pow2(shift)
    ensures var r := DecodeFrom(buf, pos, shift, result);
      r.Ok? ==> pos < r.pos <= |buf| && 0 <= r.value < TWO_TO_THE_64
    decreases |buf| - pos
  {
    if pos < |buf| {
      var b := buf[pos] % 0x80;
      NextStays(b, shift, result);
      hide Pow2, Wrap64;
      if shift + 7 <= 63 { DecodeFromStays(buf, pos + 1, shift + 7, result + Wrap64(b * Pow2(shift))); }
    }
  }

  // A varint is cut off when the buffer ends within ten bytes that all go on, too long
  // when ten bytes go on, and else ends with the first byte that does not.
  lemma DecodeEnds(buf: Bytes, pos: nat)
    ensures Decode(buf, pos) == Err(VarintPastEnd) <==> |buf| < pos + 10 && forall i :: pos <= i < |buf| ==> buf[i] >= 0x80
    ensures Decode(buf, pos) == Err(VarintTooLong) <==> pos + 10 <= |buf| && forall i :: pos <= i < pos + 10 ==> buf[i] >= 0x80
    ensures Decode(buf, pos).Ok? ==> buf[Decode(buf, pos).pos - 1] < 0x80 && forall i :: pos <= i < Decode(buf, pos).pos - 1 ==> buf[i] >= 0x80
  {
    DecodeFromEnds(buf, pos, 0, 0);
  }

  lemma {:induction false} DecodeFromEnds(buf: Bytes, pos: nat, j: nat, result: int)
    requires j <= 9
    ensures var r := DecodeFrom(buf, pos, 7 * j, result);
      && (r == Err(VarintPastEnd) <==> |buf| < pos + 10 - j && forall i :: pos <= i < |buf| ==> buf[i] >= 0x80)
      && (r == Err(VarintTooLong) <==> pos + 10 - j <= |buf| && forall i :: pos <= i < pos + 10 - j ==> buf[i] >= 0x80)
      && (r.Ok? ==> pos < r.pos <= |buf| && buf[r.pos - 1] < 0x80 && forall i :: pos <= i < r.pos - 1 ==> buf[i] >= 0x80)
    decreases |buf| - pos
  {
    if pos < |buf| && buf[pos] >= 0x80 && j < 9 {
      DecodeFromEnds(buf, pos + 1, j + 1, result + Wrap64((buf[pos] % 0x80) * Pow2(7 * j)));
    }
    hide Wrap64, Pow2;
  }

  // The result so far, with seven more bits.
  lemma NextStays(b: int, shift: nat, result: int)
    requires 0 <= b < 0x80 && shift <= 63 && 0 <= result < Pow2(shift)
    ensures 0 <= result + Wrap64(b * Pow2(shift)) < TWO_TO_THE_64
    ensures shift + 7 <= 63 ==> result + Wrap64(b * Pow2(shift)) < Pow2(shift + 7)
  {
    if shift + 7 > 63 {
      Pow2Monotone(shift, 63);
      TopBits(b, shift, result);
    } else {
      LowBits(b, shift, result);
    }
  }

  lemma LowBits(b: int, shift: nat, result: int)
    requires 0 <= b < 0x80 && shift + 7 <= 63 && 0 <= result < Pow2(shift)
    ensures 0 <= result + Wrap64(b * Pow2(shift)) < Pow2(shift + 7) < TWO_TO_THE_64
  {
    Pow2Values();
    Pow2Add(7, shift);
    Pow2Monotone(shift + 7, 63);
    PieceBelow(0x7f, b, Pow2(shift));
    hide Pow2;
    assert Wrap64(b * Pow2(shift)) == b * Pow2(shift);
  }

  // The last group: what does not fit is cut off, what remains stays in 64 bits.
  lemma TopBits(b: int, shift: nat, result: int)
    requires 0 <= b < 0x80 && 57 <= shift <= 63 && 0 <= result < Pow2(shift)
    ensures 0 <= result + Wrap64(b * Pow2(shift)) < TWO_TO_THE_64
  {
    var m := Pow2(shift);
    var k := Pow2(64 - shift);
    Pow2Positive(shift);
    Pow2Positive(64 - shift);
    Pow2Add(shift, 64 - shift);
    Pow2Values();
    ModOfMod(b * m, m, k);
    assert b * m == b * m + 0;
    DivModOf(b, m, 0);
    var w := Wrap64(b * m);
    MultipleBelow(w, m, k);
  }

  lemma MultipleBelow(w: int, m: int, k: int)
    requires m > 0 && k > 0 && 0 <= w < m * k && w % m == 0
    ensures w + m <= m * k
  {
    var q := w / m;
    assert w == m * q;
    assert q * m == m * q && k * m == m * k;
    if q >= k { PieceBelow(q, k, m); }
    PieceBelow(k, q + 1, m);
    assert (q + 1) * m == m * q + m;
  }

  // ------------------------------------------------------------- the loops

  // `write_varint`: pushes onto the buffer it is given.
  method WriteVarint(out: Bytes, value: u64) returns (out': Bytes)
    ensures out' == out + Encode(value)
  {
    out' := out;
    var v := value;
    while v >= 0x80
      invariant 0 <= v < TWO_TO_THE_64
      invariant out' + Encode(v) == out + Encode(value)
    {
      assert out' + Encode(v) == (out' + [v % 0x80 + 0x80]) + Encode(v / 0x80);
      out' := out' + [v % 0x80 + 0x80];
      v := v / 0x80;
    }
    out' := out' + [v];
  }

  // `read_varint`: advances the position it is given.
  method ReadVarint(buf: Bytes, pos: nat) returns (r: Decoded<int>)
    ensures r == Decode(buf, pos)
    ensures r.Ok? ==> pos < r.pos <= |buf| && 0 <= r.value < TWO_TO_THE_64
  {
    var at := pos;
    var result := 0;
    var shift := 0;
    while true
      invariant pos <= at && 0 <= shift <= 63
      invariant DecodeFrom(buf, at, shift, result) == Decode(buf, pos)
      decreases 70 - shift
    {
      if at >= |buf| { return Err(VarintPastEnd); }
      var byte := buf[at];
      at := at + 1;
      result := result + Wrap64((byte % 0x80) * Pow2(shift));
      if byte < 0x80 { return Ok(result, at); }
      shift := shift + 7;
      if shift > 63 { return Err(VarintTooLong); }
    }
  }

  // ------------------------------------------------------------- columns

  function EncodeColumn(vs: seq<u64>): Bytes {
    if vs == [] then [] else EncodeColumn(vs[..|vs| - 1]) + Encode(vs[|vs| - 1])
  }

  function DecodeColumn(buf: Bytes, pos: nat, n: nat): (r: Decoded<seq<int>>)
    ensures r.Ok? ==> |r.value| == n && forall i :: 0 <= i < n ==> 0 <= r.value[i] < TWO_TO_THE_64
  {
    if n == 0 then Ok([], pos)
    else
      match DecodeColumn(buf, pos, n - 1)
      case Err(e) => Err(e)
      case Ok(vs, p) =>
        match Decode(buf, p)
        case Err(e) => Err(e)
        case Ok(v, p') => Ok(vs + [v], p')
  }

  lemma {:induction false} ColumnRoundTrip(buf: Bytes, pos: nat, vs: seq<u64>)
    requires At(buf, pos, EncodeColumn(vs))
    ensures DecodeColumn(buf, pos, |vs|) == Ok(vs, pos + |EncodeColumn(vs)|)
  {
    if vs != [] {
      var n := |vs| - 1;
      AtConcat(buf, pos, EncodeColumn(vs[..n]), Encode(vs[n]));
      ColumnRoundTrip(buf, pos, vs[..n]);
      DecodeOfEncode(buf, pos + |EncodeColumn(vs[..n])|, vs[n]);
      assert vs[..n] + [vs[n]] == vs;
    }
  }

  lemma {:induction false} ColumnsJoin(a: seq<u64>, b: seq<u64>)
    ensures EncodeColumn(a + b) == EncodeColumn(a) + EncodeColumn(b)
  {
    if b == [] {
      assert a + b == a;
    } else {
      var n := |b| - 1;
      ColumnsJoin(a, b[..n]);
      assert (a + b)[..|a + b| - 1] == a + b[..n];
    }
  }

  lemma ColumnSnoc(vs: seq<u64>, i: nat)
    requires i < |vs|
    ensures EncodeColumn(vs[..i + 1]) == EncodeColumn(vs[..i]) + Encode(vs[i])
  {
    assert vs[..i + 1][..i] == vs[..i];
  }

  lemma NextColumn(buf: Bytes, pos: nat, vs: seq<u64>, rest: Bytes)
    requires At(buf, pos, EncodeColumn(vs) + rest)
    ensures DecodeColumn(buf, pos, |vs|) == Ok(vs, pos + |EncodeColumn(vs)|)
    ensures At(buf, pos + |EncodeColumn(vs)|, rest)
  {
    AtConcat(buf, pos, EncodeColumn(vs), rest);
    ColumnRoundTrip(buf, pos, vs);
  }

  lemma ColumnContinues(buf: Bytes, pos: nat, n: nat, vs: seq<int>, p: nat)
    requires DecodeColumn(buf, pos, n) == Ok(vs, p) && Decode(buf, p).Ok?
    ensures DecodeColumn(buf, pos, n + 1) == Ok(vs + [Decode(buf, p).value], Decode(buf, p).pos)
  {}

  lemma ColumnFails(buf: Bytes, pos: nat, n: nat, m: nat)
    requires n < m && DecodeColumn(buf, pos, n).Ok? && Decode(buf, DecodeColumn(buf, pos, n).pos).Err?
    ensures DecodeColumn(buf, pos, m) == Err(Decode(buf, DecodeColumn(buf, pos, n).pos).error)
  {
    ColumnErrorSticks(buf, pos, n + 1, m);
  }

  // Once a prefix of a column cannot be read, the column cannot.
  lemma {:induction false} ColumnErrorSticks(buf: Bytes, pos: nat, k: nat, n: nat)
    requires k <= n && DecodeColumn(buf, pos, k).Err?
    ensures DecodeColumn(buf, pos, n) == DecodeColumn(buf, pos, k)
  {
    if k < n { ColumnErrorSticks(buf, pos, k, n - 1); }
  }
}
