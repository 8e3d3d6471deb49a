/** The class-file byte cursor: a forward-only reader over a byte slice that
    decodes big-endian unsigned integers, u16 tables and raw byte runs.

    A read that needs more bytes than remain never returns a truncated value:
    the fixed-width reads fault with Go's index-out-of-range runtime error,
    and `ReadBytes` with slice bounds out of range. */
module ClassReader {
  import opened Faults

  newtype u8 = x: int | 0 <= x < 0x100
  newtype u16 = x: int | 0 <= x < 0x1_0000
  newtype u32 = x: int | 0 <= x < 0x1_0000_0000
  newtype u64 = x: int | 0 <= x < 0x1_0000_0000_0000_0000

  function Pow256(n: nat): (p: nat)
    ensures p >= 1
  {
    if n == 0 then 1 else 256 * Pow256(n - 1)
  }

  /** The unsigned value of `s`, most significant byte first. */
  function BigEndian(s: seq<u8>): nat
  {
    if s == [] then 0 else BigEndian(s[..|s| - 1]) * 256 + s[|s| - 1] as nat
  }

  /** `n` bytes always hold a value below 256^n. */
  lemma {:induction false} BigEndianBound(s: seq<u8>)
    ensures BigEndian(s) < Pow256(|s|)
  {
    if s != [] {
      var init := s[..|s| - 1];
      BigEndianBound(init);
      assert BigEndian(init) + 1 <= Pow256(|init|);
      assert (BigEndian(init) + 1) * 256 <= Pow256(|init|) * 256;
    }
  }

  /** The `n`-byte big-endian encoding of `v`: the inverse of BigEndian. */
  function ToBigEndian(v: nat, n: nat): (s: seq<u8>)
    requires v < Pow256(n)
    ensures |s| == n
  {
    if n == 0 then []
    else
      assert v / 256 < Pow256(n - 1) by { DivBound(v, Pow256(n - 1)); }
      ToBigEndian(v / 256, n - 1) + [(v % 256) as u8]
  }

  lemma DivBound(v: nat, p: nat)
    requires v < 256 * p
    ensures v / 256 < p
  {
  }

  /** Decoding the `n`-byte encoding of a value below 256^n gives it back. */
  lemma {:induction false} BigEndianOfEncoding(v: nat, n: nat)
    requires v < Pow256(n)
    ensures BigEndian(ToBigEndian(v, n)) == v
  {
    if n > 0 {
      var s := ToBigEndian(v, n);
      assert v / 256 < Pow256(n - 1) by { DivBound(v, Pow256(n - 1)); }
      assert s[..n - 1] == ToBigEndian(v / 256, n - 1);
      BigEndianOfEncoding(v / 256, n - 1);
    }
  }

  /** Every byte string is the encoding of its own big-endian value. */
  lemma {:induction false} EncodingOfBigEndian(s: seq<u8>)
    ensures BigEndian(s) < Pow256(|s|)
    ensures ToBigEndian(BigEndian(s), |s|) == s
  {
    BigEndianBound(s);
    if s != [] {
      var init := s[..|s| - 1];
      EncodingOfBigEndian(init);
      var v := BigEndian(s);
      assert v / 256 == BigEndian(init) && v % 256 == s[|s| - 1] as int;
      assert s == init + [s[|s| - 1]];
    }
  }

  /** Go's binary.BigEndian.Uint16 on exactly two bytes. */
  function Uint16(s: seq<u8>): u16
    requires |s| == 2
  {
    (s[0] as int * 0x100 + s[1] as int) as u16
  }

  /** Go's binary.BigEndian.Uint32 on exactly four bytes. */
  function Uint32(s: seq<u8>): u32
    requires |s| == 4
  {
    (s[0] as int * 0x100_0000 + s[1] as int * 0x1_0000 + s[2] as int * 0x100 + s[3] as int) as u32
  }

  /** Go's binary.BigEndian.Uint64 on exactly eight bytes. */
  function Uint64(s: seq<u8>): u64
    requires |s| == 8
  {
    (Uint32(s[..4]) as int * 0x1_0000_0000 + Uint32(s[4..]) as int) as u64
  }

  /** The shifts of binary.BigEndian compute the positional value of the bytes. */
  lemma Uint16Value(s: seq<u8>)
    requires |s| == 2
    ensures Uint16(s) as int == BigEndian(s)
  {
    assert s[..1][..0] == [];
    assert BigEndian(s[..1]) == s[0] as int;
  }

  /** The same for binary.BigEndian.Uint32 and Uint64. */
  lemma Uint32Value(s: seq<u8>)
    requires |s| == 4
    ensures Uint32(s) as int == BigEndian(s)
  {
    assert s[..3][..2] == s[..2] && s[..2][..1] == s[..1] && s[..1][..0] == [];
    assert BigEndian(s[..1]) == s[0] as int;
    assert BigEndian(s[..2]) == s[0] as int * 0x100 + s[1] as int;
    assert BigEndian(s[..3]) == s[0] as int * 0x1_0000 + s[1] as int * 0x100 + s[2] as int;
  }

  lemma Uint64Value(s: seq<u8>)
    requires |s| == 8
    ensures Uint64(s) as int == BigEndian(s)
  {
    Uint32Value(s[..4]);
    Uint32Value(s[4..]);
    BigEndianSplit(s[..4], s[4..]);
    assert s[..4] + s[4..] == s;
  }

  /** The value of a concatenation: the high part shifted past the low part. */
  lemma {:induction false} BigEndianSplit(hi: seq<u8>, lo: seq<u8>)
    ensures BigEndian(hi + lo) == BigEndian(hi) * Pow256(|lo|) + BigEndian(lo)
  {
    if lo != [] {
      var init := lo[..|lo| - 1];
      var last := lo[|lo| - 1] as nat;
      assert (hi + lo)[..|hi + lo| - 1] == hi + init;
      assert BigEndian(hi + lo) == BigEndian(hi + init) * 256 + last;
      BigEndianSplit(hi, init);
      assert BigEndian(lo) == BigEndian(init) * 256 + last;
      assert Pow256(|lo|) == Pow256(|init|) * 256;
      ShiftByte(BigEndian(hi), Pow256(|init|), BigEndian(init), last);
    } else {
      assert hi + lo == hi;
    }
  }

  /** Appending a byte shifts both parts of a split value by one place. */
  lemma ShiftByte(h: int, p: int, b: int, last: int)
    ensures (h * p + b) * 256 + last == h * (p * 256) + (b * 256 + last)
  {
  }

  /** The two-byte big-endian encoding of `v`. */
  function EncodeU16(v: u16): (s: seq<u8>)
    ensures |s| == 2 && Uint16(s) == v
  {
    [(v / 0x100) as u8, (v % 0x100) as u8]
  }

  /** `n` consecutive u16 values at the front of `s`. */
  function Table16(s: seq<u8>, n: nat): (t: seq<u16>)
    requires 2 * n <= |s|
    ensures |t| == n
    ensures forall i :: 0 <= i < n ==> t[i] == Uint16(s[2 * i..2 * i + 2])
  {
    if n == 0 then []
    else
      var rest := Table16(s[2..], n - 1);
      assert forall i :: 1 <= i < n ==> s[2..][2 * (i - 1)..2 * (i - 1) + 2] == s[2 * i..2 * i + 2];
      [Uint16(s[..2])] + rest
  }

  /** The two bytes of entry `k` of a table, and what follows them. */
  lemma NextEntry(d0: seq<u8>, k: nat)
    requires 4 + 2 * k <= |d0|
    ensures d0[2 + 2 * k..][..2] == d0[2..][2 * k..2 * k + 2]
    ensures d0[2 + 2 * k..][2..] == d0[4 + 2 * k..]
  {
  }

  /** A table one entry longer is the table with the next entry appended. */
  lemma Table16Snoc(s: seq<u8>, k: nat)
    requires 2 * k + 2 <= |s|
    ensures Table16(s, k + 1) == Table16(s, k) + [Uint16(s[2 * k..2 * k + 2])]
  {
  }

  /** What is left of `s` once whole u16 values are read off its front until
      fewer than two bytes remain: its last byte if its length is odd,
      nothing otherwise. */
  function OddByte(s: seq<u8>): (t: seq<u8>)
    ensures |t| < 2 && |t| <= |s| && t == s[|s| - |t|..]
  {
    if |s| < 2 then s else OddByte(s[2..])
  }

  /** Reading whole u16 values until fewer than two bytes remain leaves
      `OddByte`. */
  lemma {:induction false} OddByteAt(s: seq<u8>, k: nat)
    requires 2 * k <= |s| < 2 * k + 2
    ensures s[2 * k..] == OddByte(s)
  {
    if k > 0 {
      OddByteAt(s[2..], k - 1);
      assert s[2..][2 * (k - 1)..] == s[2 * k..];
    }
  }

  /** A table whose count promises more entries than the bytes hold faults. */
  lemma ShortTable(d0: seq<u8>, k: nat)
    requires 2 + 2 * k <= |d0| < 4 + 2 * k && k < Uint16(d0[..2]) as int
    ensures Uint16sRead(d0) == Fail(ErrorPanic(IndexOutOfRange))
  {
  }

  /** The result of a read: the decoded value and the bytes left behind it. */
  datatype Moved<+T> = Moved(value: T, rest: seq<u8>)

  /** What `readUint16` does to a buffer, as a value. */
  function Uint16Read(s: seq<u8>): (r: Result<Moved<u16>>)
    ensures r.Ok? <==> |s| >= 2
    ensures r.Ok? ==> r.value.value as int == BigEndian(s[..2]) && r.value.rest == s[2..]
    ensures r.Fail? ==> r.panic == ErrorPanic(IndexOutOfRange)
  {
    if |s| < 2 then Fail(ErrorPanic(IndexOutOfRange))
    else
      Uint16Value(s[..2]);
      Ok(Moved(Uint16(s[..2]), s[2..]))
  }

  /** What `readUint16s` does to a buffer, as a value: a u16 count n, then n u16s. */
  function Uint16sRead(s: seq<u8>): (r: Result<Moved<seq<u16>>>)
    ensures r.Ok? ==> 2 + 2 * |r.value.value| <= |s| && r.value.rest == s[2 + 2 * |r.value.value|..]
    ensures r.Fail? ==> r.panic == ErrorPanic(IndexOutOfRange)
  {
    if |s| < 2 then Fail(ErrorPanic(IndexOutOfRange))
    else
      var n := Uint16(s[..2]) as int;
      if |s| < 2 + 2 * n then Fail(ErrorPanic(IndexOutOfRange))
      else Ok(Moved(Table16(s[2..], n), s[2 + 2 * n..]))
  }

  lemma Uint16sReadSpec(s: seq<u8>)
    ensures Uint16sRead(s).Ok? <==> |s| >= 2 && |s| >= 2 + 2 * BigEndian(s[..2])
    ensures Uint16sRead(s).Ok? ==>
      var t := Uint16sRead(s).value.value;
      && |t| == BigEndian(s[..2])
      && (forall i :: 0 <= i < |t| ==> t[i] as int == BigEndian(s[2 + 2 * i..4 + 2 * i]))
      && Uint16sRead(s).value.rest == s[2 + 2 * |t|..]
  {
    if |s| >= 2 {
      Uint16Value(s[..2]);
    }
    if Uint16sRead(s).Ok? {
      var t := Uint16sRead(s).value.value;
      forall i | 0 <= i < |t| ensures t[i] as int == BigEndian(s[2 + 2 * i..4 + 2 * i]) {
        assert s[2..][2 * i..2 * i + 2] == s[2 + 2 * i..4 + 2 * i];
        Uint16Value(s[2 + 2 * i..4 + 2 * i]);
      }
    }
  }

  /** A table that starts with the count 0 is empty and takes exactly two bytes. */
  lemma EmptyTable(s: seq<u8>)
    requires |s| >= 2 && s[0] == 0 && s[1] == 0
    ensures Uint16sRead(s) == Ok(Moved([], s[2..]))
  {
  }

  /** The elements of a u16 table, two big-endian bytes each. */
  function EncodeU16s(t: seq<u16>): (s: seq<u8>)
    ensures |s| == 2 * |t|
  {
    if t == [] then [] else EncodeU16(t[0]) + EncodeU16s(t[1..])
  }

  lemma {:induction false} Table16OfEncoding(t: seq<u16>, rest: seq<u8>)
    ensures Table16(EncodeU16s(t) + rest, |t|) == t
  {
    if t != [] {
      var s := EncodeU16s(t) + rest;
      assert s[..2] == EncodeU16(t[0]);
      assert s[2..] == EncodeU16s(t[1..]) + rest;
      Table16OfEncoding(t[1..], rest);
    }
  }

  /** Decoding an encoded table gives the table back and leaves what followed it. */
  lemma Uint16sRoundTrip(t: seq<u16>, rest: seq<u8>)
    requires |t| < 0x1_0000
    ensures Uint16sRead(EncodeU16(|t| as u16) + (EncodeU16s(t) + rest)) == Ok(Moved(t, rest))
  {
    var count, body := EncodeU16(|t| as u16), EncodeU16s(t);
    var s := count + (body + rest);
    DropPrefix(count, body + rest);
    DropPrefix(body, rest);
    DropMore(count, body + rest, 2 * |t|);
    assert Table16(s[2..], |t|) == t by {
      Table16OfEncoding(t, rest);
    }
    Uint16sReadOf(s, t, rest);
  }

  lemma Uint16sReadOf(s: seq<u8>, t: seq<u16>, rest: seq<u8>)
    requires |s| == 2 + 2 * |t| + |rest| && Uint16(s[..2]) as int == |t|
    requires Table16(s[2..], |t|) == t && s[2 + 2 * |t|..] == rest
    ensures Uint16sRead(s) == Ok(Moved(t, rest))
  {
  }

  lemma DropPrefix(a: seq<u8>, b: seq<u8>)
    ensures (a + b)[..|a|] == a && (a + b)[|a|..] == b
  {
  }

  lemma DropMore(a: seq<u8>, b: seq<u8>, k: nat)
    requires k <= |b|
    ensures (a + b)[|a| + k..] == b[k..]
  {
  }

  /** One step of an opaque decoder run on the cursor: it either faults, or
      yields a value after consuming `count` bytes from the front. */
  datatype Step<+T> = Fault(panic: Panic) | Consumed(value: T, count: nat)

  /** Applying a step to the buffer.  A step that claims more bytes than
      remain overruns the slice and faults like any other short read. */
  function Advance<T>(s: seq<u8>, st: Step<T>): (r: Result<Moved<T>>)
    ensures r.Ok? ==> st.Consumed? && r.value.value == st.value
    ensures r.Fail? <==> st.Fault? || st.count > |s|
  {
    match st
    case Fault(p) => Fail(p)
    case Consumed(v, k) => if k <= |s| then Ok(Moved(v, s[k..])) else Fail(ErrorPanic(IndexOutOfRange))
  }

  /** The cursor.  `data` is the unread remainder of `original`. */
  class Reader {
    var data: seq<u8>
    ghost const original: seq<u8>

    /** The remainder is always a suffix of the original buffer. */
    ghost predicate Valid()
      reads this
    {
      |data| <= |original| && data == original[|original| - |data|..]
    }

    constructor (classData: seq<u8>)
      ensures data == classData && original == classData && Valid()
    {
      data := classData;
      original := classData;
    }

    /** u1 */
    method ReadUint8() returns (r: Result<u8>)
      requires Valid()
      modifies this
      ensures Valid() && |data| <= |old(data)|
      ensures r.Ok? <==> |old(data)| >= 1
      ensures r.Ok? ==> r.value == old(data)[0] && data == old(data)[1..]
      ensures r.Fail? ==> r.panic == ErrorPanic(IndexOutOfRange) && data == old(data)
    {
      if |data| < 1 {
        return Fail(ErrorPanic(IndexOutOfRange));
      }
      var v := data[0];
      data := data[1..];
      return Ok(v);
    }

    /** u2 */
    method ReadUint16() returns (r: Result<u16>)
      requires Valid()
      modifies this
      ensures Valid() && |data| <= |old(data)|
      ensures r.Ok? <==> |old(data)| >= 2
      ensures r.Ok? ==> r.value == Uint16(old(data)[..2]) && data == old(data)[2..]
      ensures r.Fail? ==> r.panic == ErrorPanic(IndexOutOfRange) && data == old(data)
    {
      if |data| < 2 {
        return Fail(ErrorPanic(IndexOutOfRange));
      }
      var v := Uint16(data[..2]);
      data := data[2..];
      return Ok(v);
    }

    /** u4 */
    method ReadUint32() returns (r: Result<u32>)
      requires Valid()
      modifies this
      ensures Valid() && |data| <= |old(data)|
      ensures r.Ok? <==> |old(data)| >= 4
      ensures r.Ok? ==> r.value as int == BigEndian(old(data)[..4]) && data == old(data)[4..]
      ensures r.Fail? ==> r.panic == ErrorPanic(IndexOutOfRange) && data == old(data)
    {
      if |data| < 4 {
        return Fail(ErrorPanic(IndexOutOfRange));
      }
      var v := Uint32(data[..4]);
      Uint32Value(data[..4]);
      data := data[4..];
      return Ok(v);
    }

    /** u8 (eight bytes) */
    method ReadUint64() returns (r: Result<u64>)
      requires Valid()
      modifies this
      ensures Valid() && |data| <= |old(data)|
      ensures r.Ok? <==> |old(data)| >= 8
      ensures r.Ok? ==> r.value as int == BigEndian(old(data)[..8]) && data == old(data)[8..]
      ensures r.Fail? ==> r.panic == ErrorPanic(IndexOutOfRange) && data == old(data)
    {
      if |data| < 8 {
        return Fail(ErrorPanic(IndexOutOfRange));
      }
      var v := Uint64(data[..8]);
      Uint64Value(data[..8]);
      data := data[8..];
      return Ok(v);
    }

    /** A u16 count n followed by n u16 values.  On a fault the reads already
        made stay consumed, so at most one byte is left. */
    method ReadUint16s() returns (r: Result<seq<u16>>)
      requires Valid()
      modifies this
      ensures Valid() && |data| <= |old(data)|
      ensures r.Ok? <==> Uint16sRead(old(data)).Ok?
      ensures r.Ok? ==> Uint16sRead(old(data)) == Ok(Moved(r.value, data))
      ensures r.Ok? ==> |old(data)| == 2 + 2 * |r.value| + |data|
      ensures r.Fail? ==> Uint16sRead(old(data)) == Fail(r.panic)
      ensures r.Fail? ==> data == OddByte(old(data))
    {
      ghost var d0 := data;
      var count := ReadUint16();
      if count.Fail? {
        return Fail(count.panic);
      }
      var n := count.value as int;
      var s: seq<u16> := [];
      while |s| < n
        invariant Valid()
        invariant |s| <= n && 2 + 2 * |s| <= |d0|
        invariant data == d0[2 + 2 * |s|..]
        invariant s == Table16(d0[2..], |s|)
      {
        var v := ReadUint16();
        if v.Fail? {
          ShortTable(d0, |s|);
          OddByteAt(d0, |s| + 1);
          return Fail(v.panic);
        }
        NextEntry(d0, |s|);
        Table16Snoc(d0[2..], |s|);
        s := s + [v.value];
      }
      Uint16sReadOf(d0, s, data);
      return Ok(s);
    }

    /** The next n raw bytes. */
    method ReadBytes(n: u32) returns (r: Result<seq<u8>>)
      requires Valid()
      modifies this
      ensures Valid() && |data| <= |old(data)|
      ensures r.Ok? <==> n as int <= |old(data)|
      ensures r.Ok? ==> r.value == old(data)[..n] && data == old(data)[n..]
      ensures r.Ok? ==> r.value + data == old(data)
      ensures r.Fail? ==> r.panic == ErrorPanic(SliceOutOfRange) && data == old(data)
    {
      if |data| < n as int {
        return Fail(ErrorPanic(SliceOutOfRange));
      }
      var bytes := data[..n];
      data := data[n..];
      return Ok(bytes);
    }

    /** Runs an opaque sub-decoder on the cursor. */
    method Apply<T>(decoder: seq<u8> -> Step<T>) returns (r: Result<T>)
      requires Valid()
      modifies this
      ensures Valid() && |data| <= |old(data)|
      ensures r.Ok? <==> Advance(old(data), decoder(old(data))).Ok?
      ensures r.Ok? ==> Advance(old(data), decoder(old(data))) == Ok(Moved(r.value, data))
      ensures r.Fail? ==> Advance(old(data), decoder(old(data))) == Fail(r.panic) && data == old(data)
    {
      var st := decoder(data);
      match st
      case Fault(p) =>
        return Fail(p);
      case Consumed(v, k) =>
        if k > |data| {
          return Fail(ErrorPanic(IndexOutOfRange));
        }
        data := data[k..];
        return Ok(v);
    }
  }
}
