/** Modbus coils: bits packed into bytes, in the coil array and in the client's buffer. */
module Coils {

  import opened WordBits

  // b | 1 << k, or b & ~(1 << k)
  function WithBit(b: nat, k: nat, v: bool): nat {
    if k == 0 then b / 2 * 2 + (if v then 1 else 0) else 2 * WithBit(b / 2, k - 1, v) + b % 2
  }

  lemma {:induction false} SetBit(b: nat, k: nat, v: bool, j: nat)
    ensures Bit(WithBit(b, k, v), j) == if j == k then v else Bit(b, j)
  {
    if k > 0 && j > 0 {
      SetBit(b / 2, k - 1, v, j - 1);
    }
  }

  lemma {:induction false} BitFits(b: nat, k: nat, v: bool, n: nat)
    requires b < P(n) && k < n
    ensures WithBit(b, k, v) < P(n)
    decreases n
  {
    if k > 0 {
      BitFits(b / 2, k - 1, v, n - 1);
    }
  }

  lemma ByteWithBit(b: nat, k: nat, v: bool)
    requires b < 256 && k < 8
    ensures WithBit(b, k, v) < 256
  {
    assert P(8) == 256;
    BitFits(b, k, v, 8);
  }

  predicate IsBytes(s: seq<nat>) {
    forall i :: 0 <= i < |s| ==> s[i] < 256
  }

  // The bit n of a row of bytes.
  predicate BitOf(s: seq<nat>, n: nat) {
    n / 8 < |s| && Bit(s[n / 8], n % 8)
  }

  // How many bytes n bits take up.
  function BytesFor(n: nat): nat {
    (n + 7) / 8
  }

  // They hold n bits, and one byte fewer would not.
  lemma BytesAreEnough(n: nat)
    ensures n <= 8 * BytesFor(n) < n + 8
  {
  }

  const DATA_ADDRESS := 2
  const DATA_VALUE := 3

  // coilNum coils in the array, the client's buffer behind the Modbus head.
  class Device {
    const coilNum: nat
    const coil: array<nat>
    const payload: array<nat>

    constructor (coilNum: nat, size: nat)
      requires coilNum % 8 == 0 && coilNum < 0x1_0000
      ensures this.coilNum == coilNum && Valid() && payload.Length == size && fresh(coil) && fresh(payload)
      ensures forall n: nat :: n < coilNum ==> !BitOf(coil[..], n)
    {
      this.coilNum := coilNum;
      coil := new nat[coilNum / 8](_ => 0);
      payload := new nat[size](_ => 0);
      new;
      forall n: nat | n < coilNum ensures !BitOf(coil[..], n) {
        NoBits(n % 8);
      }
    }

    ghost predicate Valid()
      reads this, coil, payload
    {
      coil != payload && coilNum < 0x1_0000 && coil.Length * 8 == coilNum && IsBytes(coil[..]) && IsBytes(payload[..])
    }

    // modbus_read_coil
    method ReadCoil(address: nat) returns (err: int, value: int)
      requires Valid()
      ensures err == if address >= coilNum then DATA_ADDRESS else 0
      ensures err == 0 ==> value == if BitOf(coil[..], address) then 1 else 0
    {
      if address >= coilNum {
        return DATA_ADDRESS, 0;
      }
      return 0, if Bit(coil[address / 8], address % 8) then 1 else 0;
    }

    // modbus_write_coil
    method WriteCoil(address: nat, value: bool) returns (err: int)
      requires Valid()
      modifies coil
      ensures Valid() && err == if address >= coilNum then DATA_ADDRESS else 0
      ensures forall n: nat :: n < coilNum ==>
                BitOf(coil[..], n) == if n == address then value else old(BitOf(coil[..], n))
    {
      if address >= coilNum {
        return DATA_ADDRESS;
      }
      CoilSet(coil[..], address, value);
      var i := address / 8;
      coil[i] := WithBit(coil[i], address % 8, value);
      assert coil[..] == old(coil[..])[i := coil[i]];
      return 0;
    }

    // Reading size coils from address on into the buffer: the number of bytes, then the bits.
    method ReadCoils(address: nat, size: nat) returns (err: int, write: nat)
      requires Valid() && address < 0x1_0000 && 1 + BytesFor(size) <= payload.Length && BytesFor(size) < 256
      modifies payload
      ensures Valid() && coil[..] == old(coil[..])
      ensures err == if address + size > coilNum && size > 0 then DATA_ADDRESS else 0
      ensures err == 0 ==> write == BytesFor(size) + 1 && payload[0] == BytesFor(size)
                           && Packed(payload[1..1 + BytesFor(size)], coil[..], address, size)
                           && payload[1 + BytesFor(size)..] == old(payload[1 + BytesFor(size)..])
      ensures err != 0 ==> write == 0
    {
      write := 0;
      var bytes, byte, i, a, left := 0, 0, 0, address, size;
      ghost var done := 0;
      ghost var before := payload[..];
      StartPacking(coil[..], address);
      hide BitOf, Packed, Packing, WithBit, Bit;
      while left > 0
        invariant Valid() && coil[..] == old(coil[..]) && done + left == size && a == address + done && i == done % 8
                  && bytes == done / 8
        invariant 1 + bytes <= payload.Length && byte < 256 && (done > 0 ==> a <= coilNum)
        invariant Packing(payload[1..1 + bytes], byte, coil[..], address, done)
        invariant payload[1 + bytes..] == before[1 + bytes..]
      {
        var v;
        err, v := ReadCoil(a);
        if err != 0 {
          return;
        }
        byte := AddBit(bytes, byte, i, v, address, done);
        i := i + 1;
        done := done + 1;
        if i >= 8 {
          PutByte(bytes, byte, before);
          bytes := bytes + 1;
          byte, i := 0, 0;
        }
        left := left - 1;
        a := a + 1;
      }
      PackDone(payload[1..1 + bytes], byte, coil[..], address, size);
      if i != 0 {
        PutByte(bytes, byte, before);
        bytes := bytes + 1;
      }
      payload[0] := bytes;
      write := bytes + 1;
      err := 0;
    }

    // byte |= 1 << i for a coil that is set.
    method AddBit(bytes: nat, byte0: nat, i: nat, v: int, ghost address: nat, ghost done: nat) returns (byte: nat)
      requires Valid() && 1 + bytes <= payload.Length && byte0 < 256 && i == done % 8
      requires v == (if BitOf(coil[..], address + done) then 1 else 0)
      requires Packing(payload[1..1 + bytes], byte0, coil[..], address, done)
      ensures byte < 256
      ensures if i == 7 then Packing(payload[1..1 + bytes] + [byte], 0, coil[..], address, done + 1)
              else Packing(payload[1..1 + bytes], byte, coil[..], address, done + 1)
    {
      PackOne(payload[1..1 + bytes], byte0, coil[..], address, done);
      ByteWithBit(byte0, i, true);
      hide BitOf, Packed, Packing, WithBit, Bit;
      byte := if v != 0 then WithBit(byte0, i, true) else byte0;
    }

    method PutByte(k: nat, byte: nat, ghost before: seq<nat>)
      requires Valid() && 1 + k < payload.Length && byte < 256 && |before| == payload.Length
               && payload[1 + k..] == before[1 + k..]
      modifies payload
      ensures Valid() && payload[1..2 + k] == old(payload[1..1 + k]) + [byte] && payload[2 + k..] == before[2 + k..]
    {
      ghost var p := payload[..];
      payload[1 + k] := byte;
      assert payload[..] == p[1 + k := byte];
      assert before[2 + k..] == before[1 + k..][1..];
      assert p[2 + k..] == p[1 + k..][1..];
    }

    // Writing size coils from address on from the buffer: behind the address and the size, which take
    // four bytes, there are the number of data bytes and the data. Coils before one that does not exist
    // have been written when the error is noticed.
    method WriteCoils(address: nat, size: nat) returns (err: int, write: nat)
      requires Valid() && address < 0x1_0000 && size < 0x1_0000 && 5 + BytesFor(size) <= payload.Length
      modifies coil
      ensures Valid() && payload[..] == old(payload[..])
      ensures err == if payload[4] != CountFor(size) then DATA_VALUE
              else if address + size > coilNum && size > 0 then DATA_ADDRESS else 0
      ensures if err == DATA_VALUE then coil[..] == old(coil[..])
              else Written(coil[..], old(coil[..]), coilNum, address, size, payload[5..])
      ensures write == if err == 0 then 4 else 0
    {
      write := 0;
      if payload[4] != CountFor(size) {
        return DATA_VALUE, 0;
      }
      var i, k, a, left := 0, 5, address, size;
      ghost var done, c0 := 0, coil[..];
      hide BitOf;
      while left > 0
        invariant Valid() && payload[..] == old(payload[..]) && done + left == size && a == address + done
                  && i == done % 8 && k == 5 + done / 8
        invariant done > 0 ==> a <= coilNum
        invariant Written(coil[..], c0, coilNum, address, done, payload[5..])
      {
        DataBit(payload[..], done);
        ghost var c1 := coil[..];
        err := WriteCoil(a, Bit(payload[k], i));
        WriteOne(coil[..], c1, c0, coilNum, address, done, payload[5..]);
        if err != 0 {
          StopsThere(coil[..], c0, coilNum, address, done, size, payload[5..]);
          return;
        }
        i := i + 1;
        done := done + 1;
        if i >= 8 {
          i := 0;
          k := k + 1;
        }
        left := left - 1;
        a := a + 1;
      }
      return 0, 4;
    }

    // What has been written is read back: the same data, 0 above the last coil, and the other coils are
    // as before.
    method WriteThenRead(address: nat, size: nat, data: seq<nat>) returns (err: int, write: nat)
      requires Valid() && address < 0x1_0000 && 0 < size && address + size <= coilNum && BytesFor(size) < 256
      requires |data| == BytesFor(size) && IsBytes(data) && 5 + |data| <= payload.Length
      modifies coil, payload
      ensures Valid() && err == 0 && write == BytesFor(size) + 1 && payload[0] == BytesFor(size)
      ensures forall n: nat :: BitOf(payload[1..1 + BytesFor(size)], n) == (n < size && BitOf(data, n))
      ensures forall n: nat :: n < coilNum && !(address <= n < address + size) ==>
                BitOf(coil[..], n) == old(BitOf(coil[..], n))
    {
      ghost var c0 := coil[..];
      Receive(data);
      err, write := WriteCoils(address, size);
      ghost var c1 := coil[..];
      ghost var p5 := payload[5..];
      assert p5[..|data|] == data;
      err, write := ReadCoils(address, size);
      assert coil[..] == c1;
      ReadBack(payload[1..1 + BytesFor(size)], c1, c0, coilNum, address, size, data, p5);
    }

    // The bytes of a request arrive in the buffer.
    method Receive(data: seq<nat>)
      requires Valid() && IsBytes(data) && |data| < 256 && 5 + |data| <= payload.Length
      modifies payload
      ensures Valid() && payload[4] == |data| && payload[5..5 + |data|] == data
    {
      payload[4] := |data|;
      var i := 0;
      while i < |data|
        invariant 0 <= i <= |data| && Valid() && payload[4] == |data| && payload[5..5 + i] == data[..i]
      {
        payload[5 + i] := data[i];
        i := i + 1;
      }
    }
  }

  // The number of data bytes that a request must state; C divides -1 by 8 to 0.
  function CountFor(size: nat): nat {
    if size == 0 then 1 else BytesFor(size)
  }

  // One byte more than (size - 1) / 8 as C divides, towards zero.
  lemma CountIs(size: nat)
    ensures (var q := if size >= 1 then (size - 1) / 8 else -((1 - size) / 8); CountFor(size) == q + 1)
  {
  }

  // The coils after done bits of the data have been written from address on.
  ghost predicate Written(coils: seq<nat>, before: seq<nat>, coilNum: nat, address: nat, done: nat, data: seq<nat>) {
    forall n: nat :: n < coilNum ==>
      BitOf(coils, n) == if address <= n < address + done then BitOf(data, n - address) else BitOf(before, n)
  }

  lemma DataBit(payload: seq<nat>, done: nat)
    requires 5 + done / 8 < |payload|
    ensures BitOf(payload[5..], done) == Bit(payload[5 + done / 8], done % 8)
  {
  }

  lemma WriteOne(coils: seq<nat>, before: seq<nat>, first: seq<nat>, coilNum: nat, address: nat, done: nat,
                 data: seq<nat>)
    requires Written(before, first, coilNum, address, done, data)
    requires forall n: nat :: n < coilNum ==>
               BitOf(coils, n) == if n == address + done then BitOf(data, done) else BitOf(before, n)
    ensures Written(coils, first, coilNum, address, done + 1, data)
  {
  }

  lemma StopsThere(coils: seq<nat>, before: seq<nat>, coilNum: nat, address: nat, done: nat, size: nat, data: seq<nat>)
    requires Written(coils, before, coilNum, address, done + 1, data) && address + done >= coilNum && done < size
    ensures Written(coils, before, coilNum, address, size, data)
  {
  }

  // The bytes hold the coils from address on, and 0 above the last one.
  ghost predicate Packed(data: seq<nat>, coils: seq<nat>, address: nat, size: nat) {
    |data| == BytesFor(size) && forall n: nat :: BitOf(data, n) == (n < size && BitOf(coils, address + n))
  }

  // done coils have been packed: full bytes, and the lower bits of another one.
  ghost predicate Packing(data: seq<nat>, byte: nat, coils: seq<nat>, address: nat, done: nat) {
    |data| == done / 8 && Packed(data + (if done % 8 == 0 then [] else [byte]), coils, address, done)
      && (done % 8 == 0 ==> byte == 0)
  }

  lemma StartPacking(coils: seq<nat>, address: nat)
    ensures Packing([], 0, coils, address, 0)
  {
  }

  lemma PackDone(data: seq<nat>, byte: nat, coils: seq<nat>, address: nat, size: nat)
    requires Packing(data, byte, coils, address, size)
    ensures Packed(if size % 8 == 0 then data else data + [byte], coils, address, size)
  {
    assert data + [] == data;
  }

  // Reading what has been written.
  lemma ReadBack(out: seq<nat>, coils: seq<nat>, before: seq<nat>, coilNum: nat, address: nat, size: nat,
                 data: seq<nat>, rest: seq<nat>)
    requires Packed(out, coils, address, size) && Written(coils, before, coilNum, address, size, rest)
             && address + size <= coilNum
    requires |data| == BytesFor(size) && |data| <= |rest| && rest[..|data|] == data
    ensures forall n: nat :: BitOf(out, n) == (n < size && BitOf(data, n))
    ensures forall n: nat :: n < coilNum && !(address <= n < address + size) ==> BitOf(coils, n) == BitOf(before, n)
  {
    forall n: nat ensures BitOf(out, n) == (n < size && BitOf(data, n)) {
      assert BitOf(out, n) == (n < size && BitOf(coils, address + n));
      if n < size {
        assert BitOf(coils, address + n) == BitOf(rest, address + n - address);
        assert data[n / 8] == rest[n / 8];
      }
    }
  }

  // One more coil.
  lemma PackOne(data: seq<nat>, byte: nat, coils: seq<nat>, address: nat, done: nat)
    requires Packing(data, byte, coils, address, done)
    ensures (var v := BitOf(coils, address + done);
             var b := if v then WithBit(byte, done % 8, true) else byte;
             if done % 8 == 7 then Packing(data + [b], 0, coils, address, done + 1)
                else Packing(data, b, coils, address, done + 1))
  {
    var v := BitOf(coils, address + done);
    var b := if v then WithBit(byte, done % 8, true) else byte;
    var old0 := data + (if done % 8 == 0 then [] else [byte]);
    forall n: nat ensures BitOf(data + [b], n) == (n < done + 1 && BitOf(coils, address + n)) {
      assert BitOf(old0, n) == (n < done && BitOf(coils, address + n));
      if n / 8 == done / 8 {
        SetBit(byte, done % 8, true, n % 8);
        NoBits(n % 8);
      }
    }
    assert data + [b] + [] == data + [b];
  }

  lemma CoilSet(s: seq<nat>, a: nat, v: bool)
    requires IsBytes(s) && a / 8 < |s|
    ensures (var t := s[a / 8 := WithBit(s[a / 8], a % 8, v)];
             IsBytes(t) && forall n: nat :: BitOf(t, n) == if n == a then v else BitOf(s, n))
  {
    var t := s[a / 8 := WithBit(s[a / 8], a % 8, v)];
    ByteWithBit(s[a / 8], a % 8, v);
    forall n: nat ensures BitOf(t, n) == if n == a then v else BitOf(s, n) {
      if n / 8 == a / 8 {
        SetBit(s[a / 8], a % 8, v, n % 8);
        assert n % 8 == a % 8 ==> n == a;
      }
    }
  }
}
