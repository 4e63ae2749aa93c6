/** mb_rtu_write and mb_rtu_tx, src/mb_rtu.c:138-154 and 179-229. */
module RtuTransmit {
  import opened Crc
  import opened CrcAlgebra
  import opened CrcSpec
  import opened RtuFrame

  // size_t and ssize_t on a 64-bit host
  const SIZE_T := 0x1_0000_0000_0000_0000
  const SSIZE_MAX := 0x7FFF_FFFF_FFFF_FFFF

  // ---- what a script of write results sends ---------------------------------------------------

  function Upto(p: int, n: nat): (positions: seq<int>)
    ensures |positions| == n
  {
    seq(n, i requires 0 <= i < n => p + i)
  }

  /** The positions of a buffer that go out, in order, and the results used for that. */
  datatype Sending = Sending(positions: seq<int>, used: seq<int>)

  /** Sending size bytes from p on, where the writes answer results: how many bytes at most, 0, or -1
      for a failure; all bytes once the results are used up. mb_rtu_write keeps an answer in a size_t,
      so that it does not see a failure: it goes one byte back and has one more byte to send. */
  function Send(p: int, size: nat, results: seq<int>): (s: Sending)
    ensures s.used <= results
    decreases |results|
  {
    if size == 0 then Sending([], [])
    else if results == [] then Sending(Upto(p, size), [])
    else if results[0] == 0 then Sending([], [0])
    else
      var n := if results[0] < 0 then -1 else Least(results[0], size);
      var rest := Send(p + n, size - n, results[1..]);
      Sending((if n < 0 then [] else Upto(p, n)) + rest.positions, [results[0]] + rest.used)
  }

  function Least(a: nat, b: nat): nat {
    if a < b then a else b
  }

  predicate AllTake(results: seq<int>) {
    forall k :: 0 <= k < |results| ==> results[k] > 0
  }

  predicate NoneZero(results: seq<int>) {
    forall k :: 0 <= k < |results| ==> results[k] != 0
  }

  lemma PlusOne(g: int, results: seq<int>)
    ensures AllTake([g] + results) <==> g > 0 && AllTake(results)
    ensures NoneZero([g] + results) <==> g != 0 && NoneZero(results)
  {
    var more := [g] + results;
    assert more[0] == g && forall k :: 0 <= k < |results| ==> more[k + 1] == results[k];
    assert forall k :: 0 < k < |more| ==> more[k] == results[k - 1];
  }

  lemma {:induction false} FirstSent(p: int, size: nat, results: seq<int>)
    ensures var s := Send(p, size, results); s.positions != [] ==> s.positions[0] <= p
    decreases |results|
  {
    if size > 0 && results != [] && results[0] < 0 {
      FirstSent(p - 1, size + 1, results[1..]);
    }
  }

  /** A buffer goes out whole if and only if no write used for it returned 0 or -1. */
  lemma {:induction false} WholeIff(p: int, size: nat, results: seq<int>)
    ensures var s := Send(p, size, results); s.positions == Upto(p, size) <==> AllTake(s.used)
    decreases |results|
  {
    hide AllTake, NoneZero;
    NothingUsed();
    if size > 0 && results != [] {
      if results[0] == 0 {
        PlusOne(0, []);
        assert [0] + [] == [0];
      } else if results[0] < 0 {
        PlusOne(results[0], Send(p - 1, size + 1, results[1..]).used);
        FirstSent(p - 1, size + 1, results[1..]);
        assert [] + Send(p - 1, size + 1, results[1..]).positions == Send(p - 1, size + 1, results[1..]).positions;
        assert Upto(p, size)[0] == p;
      } else {
        var n := Least(results[0], size);
        var rest := Send(p + n, size - n, results[1..]);
        PlusOne(results[0], rest.used);
        WholeIff(p + n, size - n, results[1..]);
        SplitUpto(p, n, size, rest.positions);
      }
    }
  }

  lemma NothingUsed()
    ensures AllTake([]) && NoneZero([])
  {
  }

  lemma SplitUpto(p: int, n: nat, size: nat, rest: seq<int>)
    requires n <= size
    ensures Upto(p, n) + rest == Upto(p, size) <==> rest == Upto(p + n, size - n)
  {
    assert Upto(p, size) == Upto(p, n) + Upto(p + n, size - n);
    assert (Upto(p, n) + rest)[n..] == rest && Upto(p, size)[n..] == Upto(p + n, size - n);
  }

  predicate Covers(positions: seq<int>, p: int, size: nat) {
    forall i :: p <= i < p + size ==> i in positions
  }

  lemma CoversMore(p: int, n: nat, size: nat, rest: seq<int>)
    requires n <= size && Covers(rest, p + n, size - n)
    ensures Covers(Upto(p, n) + rest, p, size)
  {
    forall i | p <= i < p + size ensures i in Upto(p, n) + rest {
      if i < p + n {
        assert Upto(p, n)[i - p] == i;
      }
    }
  }

  lemma CoversLess(p: int, size: nat, rest: seq<int>)
    requires Covers(rest, p - 1, size + 1)
    ensures Covers([] + rest, p, size)
  {
    assert [] + rest == rest;
  }

  lemma CoversAll(p: int, size: nat)
    ensures Covers(Upto(p, size), p, size) && (size == 0 ==> Covers([], p, size))
  {
    forall i | p <= i < p + size ensures i in Upto(p, size) {
      assert Upto(p, size)[i - p] == i;
    }
  }

  /** With no 0 among the results used, every byte of the buffer goes out, and a failure makes too many
      go out. */
  lemma {:induction false} TooMany(p: int, size: nat, results: seq<int>)
    ensures var s := Send(p, size, results);
      NoneZero(s.used) ==>
        && Covers(s.positions, p, size)
        && |s.positions| >= size && (|s.positions| == size <==> AllTake(s.used))
    decreases |results|
  {
    hide AllTake, NoneZero, Covers;
    NothingUsed();
    CoversAll(p, size);
    if size > 0 && results != [] {
      if results[0] == 0 {
        PlusOne(0, []);
        assert [0] + [] == [0];
      } else {
        var n := if results[0] < 0 then -1 else Least(results[0], size);
        PlusOne(results[0], Send(p + n, size - n, results[1..]).used);
        var rest := Send(p + n, size - n, results[1..]);
        TooMany(p + n, size - n, results[1..]);
        if Covers(rest.positions, p + n, size - n) {
          if n < 0 {
            CoversLess(p, size, rest.positions);
          } else {
            CoversMore(p, n, size, rest.positions);
          }
        }
      }
    }
  }

  /** One failure after k bytes: the byte before goes out once more, which is the byte before the buffer
      when k is 0. */
  lemma OneFailure(k: nat, size: nat)
    requires k < size
    ensures Send(0, size, if k == 0 then [-1] else [k as int, -1]).positions
      == Upto(0, k) + Upto(k - 1, size - k + 1)
  {
    if k > 0 {
      assert [k as int, -1][1..] == [-1];
    }
    assert [-1][1..] == [];
    assert Send(k - 1, size - k + 1, []).positions == Upto(k - 1, size - k + 1);
    assert [] + Upto(k - 1, size - k + 1) == Upto(k - 1, size - k + 1);
  }

  // ---- the code ---------------------------------------------------------------------------------

  /** What goes out of a buffer, and of the memory around it, position by position. */
  function BytesAt(buffer: seq<bv8>, around: int -> bv8, positions: seq<int>): (bytes: seq<bv8>)
    ensures |bytes| == |positions|
  {
    seq(|positions|, i requires 0 <= i < |positions| =>
      if 0 <= positions[i] < |buffer| then buffer[positions[i]] else around(positions[i]))
  }

  lemma BytesMore(buffer: seq<bv8>, around: int -> bv8, a: seq<int>, b: seq<int>)
    ensures BytesAt(buffer, around, a + b) == BytesAt(buffer, around, a) + BytesAt(buffer, around, b)
  {
  }

  lemma BytesWhole(buffer: seq<bv8>, around: int -> bv8, n: nat)
    requires n <= |buffer|
    ensures BytesAt(buffer, around, Upto(0, n)) == buffer[..n]
  {
  }

  class SerialOut {
    // what has gone out, and what each coming os_rtu_write returns at most: bytes, 0, or -1
    var wire: seq<bv8>
    var results: seq<int>

    constructor (results: seq<int>)
      ensures wire == [] && this.results == results
    {
      wire, this.results := [], results;
    }

    /** os_rtu_write: an ssize_t. At most size bytes are taken, all of them once the results are used
        up. */
    method OsRtuWrite(buffer: array<bv8>, around: int -> bv8, p: int, size: nat) returns (nwrite: int)
      modifies this
      ensures nwrite == if old(results) == [] then size
                        else if old(results)[0] < 0 then -1 else Least(old(results)[0], size)
      ensures results == if old(results) == [] then [] else old(results)[1..]
      ensures wire == old(wire) + BytesAt(buffer[..], around, Upto(p, if nwrite < 0 then 0 else nwrite))
    {
      nwrite := size;
      if results != [] {
        nwrite := if results[0] < 0 then -1 else Least(results[0], size);
        results := results[1..];
      }
      wire := wire + BytesAt(buffer[..], around, Upto(p, if nwrite < 0 then 0 else nwrite));
    }

    /** mb_rtu_write, with its size_t: a result of -1 is kept as the greatest one, which is not taken
        for a failure; added to the pointer and taken from the size it counts as -1 again. */
    method MbRtuWrite(buffer: array<bv8>, around: int -> bv8, size: nat) returns (ghost sent: Sending)
      requires size + |results| <= SSIZE_MAX
      modifies this
      ensures sent == Send(0, size, old(results)) && results == old(results)[|sent.used|..]
      ensures wire == old(wire) + BytesAt(buffer[..], around, sent.positions)
    {
      hide BytesAt, Send, Upto, SizeT, Pointer, Midway;
      var p, remain: nat := 0, size;
      ghost var all, out, so := results, wire, Sending([], []);
      sent := Send(0, size, all);
      Starts(buffer[..], around, out, size, all);
      while remain > 0
        invariant remain + |results| <= SSIZE_MAX
        invariant wire == out + BytesAt(buffer[..], around, so.positions)
        invariant Midway(all, so, p, remain, results, sent)
        decreases |results|, remain
      {
        ghost var before := results;
        var result := OsRtuWrite(buffer, around, p, remain);
        var nwrite := SizeT(result);
        Joins(out, buffer[..], around, so.positions, Upto(p, if result < 0 then 0 else result));
        so := OneRound(all, so, p, remain, before, result, sent);
        if nwrite <= 0 {
          return;
        }
        p := Pointer(p, nwrite);
        remain := SizeT(remain - nwrite);
      }
      Ends(all, so, p, results, sent);
    }

    /** The three writes of mb_rtu_tx. */
    method WriteParts(slave: array<bv8>, data: array<bv8>, size: nat, crc: array<bv8>,
          around1: int -> bv8, around2: int -> bv8, around3: int -> bv8)
      returns (ghost s1: Sending, ghost s2: Sending, ghost s3: Sending)
      requires size + 2 + |results| <= SSIZE_MAX
      modifies this
      ensures s1 == Send(0, 1, old(results)) && s2 == Send(0, size, old(results)[|s1.used|..])
      ensures s1.used + s2.used <= old(results) && s3 == Send(0, 2, old(results)[|s1.used + s2.used|..])
      ensures results == old(results)[|s1.used + s2.used + s3.used|..]
      ensures wire == old(wire) + BytesAt(slave[..], around1, s1.positions) + BytesAt(data[..], around2, s2.positions)
                + BytesAt(crc[..], around3, s3.positions)
    {
      hide Send, Upto, BytesAt, AllTake, NoneZero;
      ghost var all := results;
      s1 := MbRtuWrite(slave, around1, 1);
      s2 := MbRtuWrite(data, around2, size);
      s3 := MbRtuWrite(crc, around3, 2);
      UsedTwo(all, s1.used, s2.used);
      UsedTwo(all, s1.used + s2.used, s3.used);
    }

    /** mb_rtu_tx: address, PDU, then the CRC as it lies in a little-endian memory. The frame goes out,
        each part from its first byte to its last, if and only if none of the writes fails or returns
        0. Where no write returns 0, anything else shows on the wire. */
    method MbRtuTx(unit: bv8, data: array<bv8>, size: uint8,
          around1: int -> bv8, around2: int -> bv8, around3: int -> bv8)
      returns (ghost s1: Sending, ghost s2: Sending, ghost s3: Sending)
      requires size <= data.Length && size + 2 + |results| <= SSIZE_MAX
      modifies this
      ensures s1 == Send(0, 1, old(results)) && s2 == Send(0, size, old(results)[|s1.used|..])
      ensures s1.used + s2.used <= old(results) && s3 == Send(0, 2, old(results)[|s1.used + s2.used|..])
      ensures results == old(results)[|s1.used + s2.used + s3.used|..]
      ensures var frame := Frame(unit, data[..size]);
        wire == old(wire) + BytesAt([unit], around1, s1.positions) + BytesAt(data[..], around2, s2.positions)
                + BytesAt(frame[1 + size..], around3, s3.positions)
      ensures s1.positions == Upto(0, 1) && s2.positions == Upto(0, size) && s3.positions == Upto(0, 2)
        <==> AllTake(s1.used + s2.used + s3.used)
      ensures AllTake(s1.used + s2.used + s3.used) ==> wire == old(wire) + Frame(unit, data[..size])
      ensures NoneZero(s1.used + s2.used + s3.used) ==>
        (wire == old(wire) + Frame(unit, data[..size]) <==> AllTake(s1.used + s2.used + s3.used))
    {
      hide BitwiseCrc, Frame, Low, High, Send, Upto, BytesAt, AllTake, NoneZero;
      var slave := new bv8[1](_ => unit);
      var crc := MbCrc(slave, 0, 1, 0xFFFF);
      crc := MbCrc(data, 0, size, crc);
      assert slave[0..1] == [unit] && data[0..size] == data[..size];
      CrcConcat([unit], data[..size], 0xFFFF);
      Frames(unit, data[..size], crc);
      var memory := new bv8[2](i => if i == 0 then Low(crc) else High(crc));
      assert memory[..] == [Low(crc), High(crc)];
      ghost var all, out := results, wire;
      s1, s2, s3 := WriteParts(slave, data, size, memory, around1, around2, around3);
      assert slave[..] == [unit];
      WholeFrame(out, unit, data[..], size, crc, around1, around2, around3, s1, s2, s3, all);
    }
  }

  /** What has been sent and what Send says of the rest make up the whole. */
  ghost predicate Midway(all: seq<int>, so: Sending, p: int, remain: nat, results: seq<int>, sent: Sending) {
    var rest := Send(p, remain, results);
    && so.used <= all && results == all[|so.used|..]
    && sent == Sending(so.positions + rest.positions, so.used + rest.used)
  }

  lemma Starts(buffer: seq<bv8>, around: int -> bv8, out: seq<bv8>, size: nat, all: seq<int>)
    ensures out + BytesAt(buffer, around, []) == out
    ensures Midway(all, Sending([], []), 0, size, all, Send(0, size, all))
  {
    hide Send;
    var s := Send(0, size, all);
    assert [] + s.positions == s.positions && [] + s.used == s.used && all[0..] == all;
  }

  lemma Ends(all: seq<int>, so: Sending, p: int, results: seq<int>, sent: Sending)
    requires Midway(all, so, p, 0, results, sent)
    ensures sent == so && results == all[|sent.used|..]
  {
    assert so.positions + [] == so.positions && so.used + [] == so.used;
  }

  /** One round of the loop. */
  lemma OneRound(all: seq<int>, so: Sending, p: int, remain: nat, results: seq<int>, result: int, sent: Sending)
    returns (so': Sending)
    requires Midway(all, so, p, remain, results, sent) && 0 < remain <= SSIZE_MAX - |results|
    requires result == if results == [] then remain
                       else if results[0] < 0 then -1 else Least(results[0], remain)
    ensures so'.positions == so.positions + Upto(p, if result < 0 then 0 else result)
    ensures var nwrite := SizeT(result);
      var left := if results == [] then [] else results[1..];
      if nwrite <= 0 then sent == so' && left == all[|sent.used|..]
      else
        && (if results == [] then SizeT(remain - nwrite) == 0 else SizeT(remain - nwrite) <= remain + 1)
        && Midway(all, so', Pointer(p, nwrite), SizeT(remain - nwrite), left, sent)
  {
    hide Send, Upto, SizeT, Pointer;
    Advances(p, remain, results, result);
    var now := Upto(p, if result < 0 then 0 else result);
    var used := if results == [] then [] else [results[0]];
    var left := if results == [] then [] else results[1..];
    so' := Sending(so.positions + now, so.used + used);
    UsedMore(all, so.used);
    if SizeT(result) > 0 {
      var rest := Send(Pointer(p, SizeT(result)), SizeT(remain - SizeT(result)), left);
      Associate(so.positions, now, rest.positions);
      Associate(so.used, used, rest.used);
    }
  }

  lemma Associate(a: seq<int>, b: seq<int>, c: seq<int>)
    ensures a + b + c == a + (b + c)
  {
  }

  /** A number as a size_t. */
  function SizeT(n: int): nat {
    n % SIZE_T
  }

  /** A pointer plus a size_t wraps around. */
  function Pointer(p: int, n: nat): int {
    if n <= SSIZE_MAX then p + n else p + n - SIZE_T
  }

  lemma UsedMore(all: seq<int>, used: seq<int>)
    requires used <= all
    ensures used < all ==> used + [all[|used|]] <= all && all[|used|..][1..] == all[|used| + 1..]
  {
  }

  lemma Joins(out: seq<bv8>, buffer: seq<bv8>, around: int -> bv8, a: seq<int>, b: seq<int>)
    ensures out + BytesAt(buffer, around, a) + BytesAt(buffer, around, b) == out + BytesAt(buffer, around, a + b)
  {
    BytesMore(buffer, around, a, b);
  }

  lemma Wraps(p: int, remain: nat, result: int)
    requires -1 <= result <= remain <= SSIZE_MAX
    ensures Pointer(p, SizeT(result)) == p + result
    ensures SizeT(result) == if result < 0 then SIZE_T - 1 else result
    ensures SizeT(remain - SizeT(result)) == if result < 0 then remain + 1 else remain - result
  {
  }

  lemma NoneMore(positions: seq<int>)
    ensures positions + [] == positions
  {
  }

  /** One round of the loop is one step of Send. */
  lemma Advances(p: int, remain: nat, results: seq<int>, result: int)
    requires 0 < remain <= SSIZE_MAX - |results|
    requires result == if results == [] then remain
                       else if results[0] < 0 then -1 else Least(results[0], remain)
    ensures var s := Send(p, remain, results);
      var now := Upto(p, if result < 0 then 0 else result);
      var used := if results == [] then [] else [results[0]];
      var nwrite := SizeT(result);
      if nwrite <= 0 then s == Sending(now, used)
      else
        && (if results == [] then SizeT(remain - nwrite) == 0 else SizeT(remain - nwrite) <= remain + 1)
        &&
        var rest := Send(Pointer(p, nwrite), SizeT(remain - nwrite), if results == [] then [] else results[1..]);
        s == Sending(now + rest.positions, used + rest.used)
  {
    Wraps(p, remain, result);
    hide SizeT, Pointer, Upto;
    if results == [] {
      NoneMore(Upto(p, remain));
    }
  }

  lemma Frames(unit: bv8, pdu: seq<bv8>, crc: bv16)
    requires crc == BitwiseCrc([unit] + pdu, 0xFFFF)
    ensures Frame(unit, pdu) == [unit] + pdu + [Low(crc), High(crc)]
    ensures Frame(unit, pdu)[1 + |pdu|..] == [Low(crc), High(crc)]
  {
    hide BitwiseCrc, Low, High;
  }

  lemma UsedTwo(all: seq<int>, a: seq<int>, b: seq<int>)
    requires a <= all && b <= all[|a|..]
    ensures a + b <= all && all[|a|..][|b|..] == all[|a + b|..]
  {
  }

  lemma WholeFrame(out: seq<bv8>, unit: bv8, data: seq<bv8>, size: nat, crc: bv16,
        around1: int -> bv8, around2: int -> bv8, around3: int -> bv8,
        s1: Sending, s2: Sending, s3: Sending, all: seq<int>)
    requires size <= |data| && s1.used <= all && s1.used + s2.used <= all
    requires s1 == Send(0, 1, all) && s2 == Send(0, size, all[|s1.used|..])
    requires s3 == Send(0, 2, all[|s1.used + s2.used|..])
    requires Frame(unit, data[..size]) == [unit] + data[..size] + [Low(crc), High(crc)]
    ensures var frame := Frame(unit, data[..size]);
      var wire := out + BytesAt([unit], around1, s1.positions) + BytesAt(data, around2, s2.positions)
                + BytesAt([Low(crc), High(crc)], around3, s3.positions);
      var used := s1.used + s2.used + s3.used;
      && (s1.positions == Upto(0, 1) && s2.positions == Upto(0, size) && s3.positions == Upto(0, 2) <==> AllTake(used))
      && (AllTake(used) ==> wire == out + frame)
      && (NoneZero(used) ==> (wire == out + frame <==> AllTake(used)))
  {
    hide Frame, Low, High, Send, Upto, BytesAt, AllTake, NoneZero;
    AllOfThree(s1.used, s2.used, s3.used);
    WholeIff(0, 1, all);
    WholeIff(0, size, all[|s1.used|..]);
    WholeIff(0, 2, all[|s1.used + s2.used|..]);
    TooMany(0, 1, all);
    TooMany(0, size, all[|s1.used|..]);
    TooMany(0, 2, all[|s1.used + s2.used|..]);
    BytesWhole([unit], around1, 1);
    BytesWhole(data, around2, size);
    BytesWhole([Low(crc), High(crc)], around3, 2);
    var tail := [Low(crc), High(crc)];
    assert [unit][..1] == [unit] && tail[..2] == tail;
    Regrouped(out, [unit], data[..size], tail);
  }

  lemma AllOfThree(a: seq<int>, b: seq<int>, c: seq<int>)
    ensures AllTake(a + b + c) <==> AllTake(a) && AllTake(b) && AllTake(c)
    ensures NoneZero(a + b + c) <==> NoneZero(a) && NoneZero(b) && NoneZero(c)
  {
    AllOfTwo(a + b, c);
    AllOfTwo(a, b);
  }

  lemma AllOfTwo(a: seq<int>, b: seq<int>)
    ensures AllTake(a + b) <==> AllTake(a) && AllTake(b)
    ensures NoneZero(a + b) <==> NoneZero(a) && NoneZero(b)
  {
    var c := a + b;
    assert forall k :: 0 <= k < |a| ==> a[k] == c[k];
    assert forall k :: 0 <= k < |b| ==> b[k] == c[|a| + k];
  }

  lemma Regrouped(wire: seq<bv8>, a: seq<bv8>, b: seq<bv8>, c: seq<bv8>)
    ensures wire + a + b + c == wire + (a + b + c)
  {
  }
}
