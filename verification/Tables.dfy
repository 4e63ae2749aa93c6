/** The slave's tables and their callbacks: include/mb_slave.h:33-85 and the loops of
    sample/slave.c:26-91, for any table of at most 65536 cells. */
module Tables {
  import opened Errors
  import opened Pdu

  /** What a callback returns: 0 or a modbus exception. */
  predicate IsAnswer(e: int) {
    ESLAVE_DEVICE_FAILURE <= e <= 0
  }

  /** A table as its user sees it: its cells, which callbacks it has, and what they answer at
      the moment. */
  datatype Table<T> = Table(cells: seq<T>, canGet: bool, canSet: bool, getAnswer: int, setAnswer: int)

  /** cells with vals written from address on. */
  function Splice<T>(cells: seq<T>, address: nat, vals: seq<T>): (r: seq<T>)
    requires address + |vals| <= |cells|
    ensures |r| == |cells|
    ensures forall i :: 0 <= i < |cells| ==>
      r[i] == if address <= i < address + |vals| then vals[i - address] else cells[i]
  {
    cells[..address] + vals + cells[address + |vals|..]
  }

  lemma BitAtUpdate(data: seq<bv8>, address: nat, value: bool, i: nat)
    requires address / 8 < |data| && i / 8 < |data|
    ensures BitAt(data[address / 8 := With(data[address / 8], address % 8, value)], i)
      == if i == address then value else BitAt(data, i)
  {
    hide Has, With;
    WithHas(data[address / 8], address % 8, value, i % 8);
  }

  /** Setting the next bit appends it to the bits so far. */
  lemma UnpackMore(before: seq<bv8>, after: seq<bv8>, n: nat, value: bool)
    requires |before| == |after| && n < 8 * |before|
    requires Unpack(after, 8 * |after|) == Unpack(before, 8 * |before|)[n := value]
    ensures Unpack(after, n + 1) == Unpack(before, n) + [value]
  {
    hide BitAt;
    forall i | 0 <= i <= n ensures Unpack(after, n + 1)[i] == (Unpack(before, n) + [value])[i] {
      assert Unpack(after, 8 * |after|)[i] == BitAt(after, i);
      assert Unpack(before, 8 * |before|)[i] == BitAt(before, i);
    }
  }

  lemma UnpackPrefix(data: seq<bv8>, n: nat, m: nat)
    requires n <= m <= 8 * |data|
    ensures Unpack(data, n) == Unpack(data, m)[..n]
  {
    hide BitAt;
  }

  lemma PackRegsMore(words: seq<bv16>, w: bv16)
    ensures PackRegs(words + [w]) == PackRegs(words) + [WordHigh(w), WordLow(w)]
  {
    hide WordHigh, WordLow;
  }

  lemma RegsAt(data: seq<bv8>, from: nat, quantity: nat, k: nat)
    requires from + 2 * quantity <= |data| && k < quantity
    ensures Regs(data[from..from + 2 * quantity], quantity)[k] == Word(data[from + 2 * k], data[from + 2 * k + 1])
  {
    hide Word;
  }

  lemma OneMore<T>(s: seq<T>, from: nat, to: nat)
    requires from <= to < |s|
    ensures s[from..to + 1] == s[from..to] + [s[to]]
  {
  }

  lemma TwoMore<T>(was: seq<T>, now: seq<T>, from: nat, to: nat)
    requires from <= to && to + 2 <= |was| == |now| && was[..to] == now[..to]
    ensures now[from..to + 2] == was[from..to] + [now[to], now[to + 1]]
  {
    assert was[from..to] == was[..to][from..];
    assert now[from..to] == now[..to][from..];
  }

  lemma SpliceMore<T>(cells: seq<T>, address: nat, vals: seq<T>, v: T)
    requires address + |vals| < |cells|
    ensures Splice(cells, address, vals)[address + |vals| := v] == Splice(cells, address, vals + [v])
  {
    hide Splice;
  }

  lemma UnpackedAt(data: seq<bv8>, n: nat, i: nat)
    requires i < n <= 8 * |data|
    ensures Unpack(data, n)[i] == Has(data[i / 8], i % 8)
  {
    hide Has;
  }

  lemma NoneUnpacked(data: seq<bv8>)
    ensures Unpack(data, 0) == []
  {
  }

  lemma UnpackSnoc(data: seq<bv8>, n: nat)
    requires n < 8 * |data|
    ensures Unpack(data, n + 1) == Unpack(data, n) + [BitAt(data, n)]
  {
    hide BitAt;
  }

  /** Splicing into all the bits of some bytes is splicing into the first of them. */
  lemma SplicedPrefix(before: seq<bv8>, after: seq<bv8>, n: nat, m: nat, address: nat, vals: seq<bool>)
    requires n <= m == 8 * |before| == 8 * |after| && address + |vals| <= n
    requires Unpack(after, m) == Splice(Unpack(before, m), address, vals)
    ensures Unpack(after, n) == Splice(Unpack(before, n), address, vals)
  {
    hide Unpack;
    UnpackPrefix(after, n, m);
    UnpackPrefix(before, n, m);
  }

  /** mb_slave_bit_set on the n bytes from data + from on. */
  method BitSet(data: array<bv8>, from: nat, n: nat, address: nat, value: bool)
    requires from + n <= data.Length && address / 8 < n
    modifies data
    ensures forall k :: 0 <= k < data.Length && !(from <= k < from + n) ==> data[k] == old(data[k])
    ensures Unpack(data[from..from + n], 8 * n) == old(Unpack(data[from..from + n], 8 * n))[address := value]
  {
    hide Has, With;
    var ix := address / 8;
    ghost var before := data[from..from + n];
    data[from + ix] := With(data[from + ix], address % 8, value);
    ghost var after := data[from..from + n];
    assert after == before[ix := With(before[ix], address % 8, value)];
    forall i | 0 <= i < 8 * n
      ensures Unpack(after, 8 * n)[i] == Unpack(before, 8 * n)[address := value][i]
    {
      BitAtUpdate(before, address, value, i);
    }
  }

  /** mb_slave_reg_set on the data from data + from on. */
  method RegSet(data: array<bv8>, from: nat, address: nat, value: bv16)
    requires from + 2 * address + 2 <= data.Length
    modifies data
    ensures forall k :: 0 <= k < data.Length && k != from + 2 * address && k != from + 2 * address + 1 ==>
      data[k] == old(data[k])
    ensures data[from..from + 2 * (address + 1)] ==
      old(data[from..from + 2 * address]) + [WordHigh(value), WordLow(value)]
  {
    hide WordHigh, WordLow;
    ghost var before := data[..];
    data[from + 2 * address] := WordHigh(value);
    data[from + 2 * address + 1] := WordLow(value);
    TwoMore(before, data[..], from, from + 2 * address);
  }

  class BitTable {
    const bytes: array<bv8>
    const size: nat
    const canGet: bool
    const canSet: bool
    var getAnswer: int
    var setAnswer: int

    /** A table of the first size bits of bytes, whose callbacks succeed for now. */
    constructor (bytes: array<bv8>, size: nat, canGet: bool, canSet: bool)
      requires size <= 0x1_0000 && size <= 8 * bytes.Length
      ensures Valid() && this.bytes == bytes && this.size == size
      ensures View() == Table(Unpack(bytes[..], size), canGet, canSet, 0, 0)
    {
      this.bytes, this.size, this.canGet, this.canSet := bytes, size, canGet, canSet;
      getAnswer, setAnswer := 0, 0;
    }

    ghost predicate Valid()
      reads this
    {
      size <= 0x1_0000 && size <= 8 * bytes.Length && IsAnswer(getAnswer) && IsAnswer(setAnswer)
    }

    ghost function View(): Table<bool>
      requires Valid()
      reads this, bytes
    {
      Table(Unpack(bytes[..], size), canGet, canSet, getAnswer, setAnswer)
    }

    /** The user's callbacks answer otherwise from now on. */
    method Answer(get: int, put: int)
      requires Valid() && IsAnswer(get) && IsAnswer(put)
      modifies this
      ensures Valid() && View() == old(View()).(getAnswer := get, setAnswer := put)
    {
      getAnswer, setAnswer := get, put;
    }

    /** The user puts other contents into the table. */
    method Fill(contents: seq<bv8>)
      requires Valid() && |contents| == bytes.Length
      modifies bytes
      ensures View() == old(View()).(cells := Unpack(contents, size))
    {
      hide Unpack;
      forall k | 0 <= k < |contents| {
        bytes[k] := contents[k];
      }
      assert bytes[..] == contents;
    }

    /** coil_get: cells into the bits from data + from on; bits past the last are not touched. */
    method Get(address: nat, data: array<bv8>, from: nat, quantity: nat) returns (error: int)
      requires Valid() && address + quantity <= size && data != bytes
      requires from + ByteCount(quantity) <= data.Length
      modifies data
      ensures error == getAnswer
      ensures error != 0 ==> data[..] == old(data[..])
      ensures error == 0 ==>
        Unpack(data[from..from + ByteCount(quantity)], quantity) == View().cells[address..address + quantity]
      ensures forall k :: 0 <= k < data.Length && !(from <= k < from + ByteCount(quantity)) ==>
        data[k] == old(data[k])
    {
      hide Has, With, Unpack;
      error := getAnswer;
      if error != 0 {
        return;
      }
      var n := ByteCount(quantity);
      ghost var cells := Unpack(bytes[..], size);
      NoneUnpacked(data[from..from + n]);
      for offset := 0 to quantity
        invariant forall k :: 0 <= k < data.Length && !(from <= k < from + n) ==> data[k] == old(data[k])
        invariant Unpack(data[from..from + n], offset) == cells[address..address + offset]
      {
        var bit := address + offset;
        var value := Has(bytes[bit / 8], bit % 8);
        ghost var before := data[from..from + n];
        BitSet(data, from, n, offset, value);
        UnpackMore(before, data[from..from + n], offset, value);
        UnpackedAt(bytes[..], size, bit);
        assert cells[address..address + offset + 1] == cells[address..address + offset] + [value];
      }
    }

    /** coil_set: the bits from data + from on into the cells. */
    method Set(address: nat, data: array<bv8>, from: nat, quantity: nat) returns (error: int)
      requires Valid() && address + quantity <= size && data != bytes
      requires from + ByteCount(quantity) <= data.Length
      modifies bytes
      ensures error == setAnswer
      ensures error != 0 ==> View() == old(View())
      ensures error == 0 ==>
        View() == old(View()).(cells :=
          Splice(old(View().cells), address, Unpack(data[from..from + ByteCount(quantity)], quantity)))
    {
      hide Has, With, Unpack, Splice;
      error := setAnswer;
      if error != 0 {
        return;
      }
      ghost var before, input, bits := bytes[..], data[from..from + ByteCount(quantity)], 8 * bytes.Length;
      for offset := 0 to quantity
        invariant Unpack(bytes[..], bits) == Splice(Unpack(before, bits), address, Unpack(input, offset))
      {
        var bit := address + offset;
        assert data[from + offset / 8] == input[offset / 8];
        var value := Has(data[from + offset / 8], offset % 8);
        SetBit(bit, value);
        SpliceMore(Unpack(before, bits), address, Unpack(input, offset), value);
        UnpackSnoc(input, offset);
      }
      SplicedPrefix(before, bytes[..], size, bits, address, Unpack(input, quantity));
    }

    method SetBit(bit: nat, value: bool)
      requires bit < 8 * bytes.Length
      modifies bytes
      ensures Unpack(bytes[..], 8 * bytes.Length) == old(Unpack(bytes[..], 8 * bytes.Length))[bit := value]
    {
      hide Unpack;
      assert bytes[0..bytes.Length] == bytes[..];
      BitSet(bytes, 0, bytes.Length, bit, value);
      assert bytes[0..bytes.Length] == bytes[..];
    }
  }

  class RegTable {
    const regs: array<bv16>
    const size: nat
    const canGet: bool
    const canSet: bool
    var getAnswer: int
    var setAnswer: int

    /** A table of the first size registers of regs, whose callbacks succeed for now. */
    constructor (regs: array<bv16>, size: nat, canGet: bool, canSet: bool)
      requires size <= 0x1_0000 && size <= regs.Length
      ensures Valid() && this.regs == regs && this.size == size
      ensures View() == Table(regs[..size], canGet, canSet, 0, 0)
    {
      this.regs, this.size, this.canGet, this.canSet := regs, size, canGet, canSet;
      getAnswer, setAnswer := 0, 0;
    }

    ghost predicate Valid()
      reads this
    {
      size <= 0x1_0000 && size <= regs.Length && IsAnswer(getAnswer) && IsAnswer(setAnswer)
    }

    ghost function View(): Table<bv16>
      requires Valid()
      reads this, regs
    {
      Table(regs[..size], canGet, canSet, getAnswer, setAnswer)
    }

    /** The user's callbacks answer otherwise from now on. */
    method Answer(get: int, put: int)
      requires Valid() && IsAnswer(get) && IsAnswer(put)
      modifies this
      ensures Valid() && View() == old(View()).(getAnswer := get, setAnswer := put)
    {
      getAnswer, setAnswer := get, put;
    }

    /** The user puts other contents into the table. */
    method Fill(contents: seq<bv16>)
      requires Valid() && |contents| == regs.Length
      modifies regs
      ensures View() == old(View()).(cells := contents[..size])
    {
      forall k | 0 <= k < |contents| {
        regs[k] := contents[k];
      }
      assert regs[..] == contents;
    }

    /** hold_get */
    method Get(address: nat, data: array<bv8>, from: nat, quantity: nat) returns (error: int)
      requires Valid() && address + quantity <= size
      requires from + 2 * quantity <= data.Length
      modifies data
      ensures error == getAnswer
      ensures error != 0 ==> data[..] == old(data[..])
      ensures error == 0 ==>
        data[from..from + 2 * quantity] == PackRegs(View().cells[address..address + quantity])
      ensures forall k :: 0 <= k < data.Length && !(from <= k < from + 2 * quantity) ==> data[k] == old(data[k])
    {
      hide WordHigh, WordLow, PackRegs;
      error := getAnswer;
      if error != 0 {
        return;
      }
      ghost var cells := View().cells;
      for offset := 0 to quantity
        invariant forall k :: 0 <= k < data.Length && !(from <= k < from + 2 * offset) ==> data[k] == old(data[k])
        invariant data[from..from + 2 * offset] == PackRegs(cells[address..address + offset])
      {
        var value := regs[address + offset];
        RegSet(data, from, offset, value);
        PackRegsMore(cells[address..address + offset], value);
        OneMore(cells, address, address + offset);
      }
    }

    /** hold_set */
    method Set(address: nat, data: array<bv8>, from: nat, quantity: nat) returns (error: int)
      requires Valid() && address + quantity <= size
      requires from + 2 * quantity <= data.Length
      modifies regs
      ensures error == setAnswer
      ensures error != 0 ==> View() == old(View())
      ensures error == 0 ==>
        View() == old(View()).(cells :=
          Splice(old(View().cells), address, Regs(data[from..from + 2 * quantity], quantity)))
    {
      hide Word, Regs;
      error := setAnswer;
      if error != 0 {
        return;
      }
      ghost var before, words := regs[..size], Regs(data[from..from + 2 * quantity], quantity);
      for offset := 0 to quantity
        invariant forall i :: 0 <= i < size && !(address <= i < address + offset) ==> regs[i] == before[i]
        invariant forall i :: address <= i < address + offset ==> regs[i] == words[i - address]
      {
        RegsAt(data[..], from, quantity, offset);
        regs[address + offset] := Word(data[from + 2 * offset], data[from + 2 * offset + 1]);
      }
      assert regs[..size] == Splice(before, address, words);
    }
  }
}
