/** What the calls of include/mbus.h do, in numbers: data model addresses, slave numbers, quantities
    and results as a caller writes them, and cells as they are in the slave's tables. */
module CallValues {
  import opened Master
  import opened Pdu
  import opened PlainMap
  import opened SlaveSpec
  import opened Tables

  // ---- addresses --------------------------------------------------------------------------------

  /** 0x0_0001 is the first coil, 0x1_0001 the first input, 0x3_0001 the first input register and
      0x4_0001 the first holding register; there is nothing else, and 0 counts as 0x1_0000. */
  lemma Places(n: nat)
    requires n < 0x1_0000
    ensures var i := if n == 0 then 65535 else n - 1;
      && PlaceOf(n) == At(Coils, i) && PlaceOf(0x1_0000 + n) == At(Inputs, i)
      && PlaceOf(0x3_0000 + n) == At(InputRegs, i) && PlaceOf(0x4_0000 + n) == At(Holding, i)
    ensures PlaceOf(0x2_0000 + n) == Nowhere && forall a :: a >= 0x5_0000 ==> PlaceOf(a) == Nowhere
  {
  }

  // ---- buffers ------------------------------------------------------------------------------------

  /** Bit i of a caller's buffer is bit i % 8 of byte i / 8; a register has its low byte first. */
  lemma BufferCells(data: seq<bv8>, n: nat, i: nat)
    requires i < n
    ensures (n + 7) / 8 <= |data| ==>
      && CellsIn(data, Coils, n) == CellsIn(data, Inputs, n)
      && CellsIn(data, Coils, n)[i] == Bit(HasPower(data[i / 8] as int, i % 8))
    ensures 2 * n <= |data| ==>
      && CellsIn(data, Holding, n) == CellsIn(data, InputRegs, n)
      && var cell := CellsIn(data, Holding, n)[i];
         cell.Reg? && cell.word as int == data[2 * i] as int + 256 * data[2 * i + 1] as int
  {
    hide Has, HasPower, Word;
    if (n + 7) / 8 <= |data| {
      HasValue(data[i / 8], i % 8);
    }
    if 2 * n <= |data| {
      WordValue(data[2 * i + 1], data[2 * i]);
    }
  }

  // ---- reads ---------------------------------------------------------------------------------------

  /** Coils and inputs: a call for q bits from number n of table t on. */
  lemma ReadBitsOf(s: Store, t: Table<bool>, reach: Reach, slave: int, kind: nat, n: nat, q: nat)
    requires 1 <= n < 0x1_0000 && ((kind == 0 && t == s.coils) || (kind == 1 && t == s.inputs))
    ensures var o := PlainRead(Abstract(s), reach, slave, 0x1_0000 * kind + n, q);
      if slave == 0 || q > 2000 then o == Failed(-1)
      else if !Hears(reach, slave) then o == Failed(-104)
      else if q == 0 then o == Failed(-3)
      else if n - 1 + q > |t.cells| then o == Failed(-2)
      else if !t.canGet then o == Failed(-1)
      else if t.getAnswer != 0 then o == Failed(t.getAnswer)
      else o == Values(seq(q, i requires 0 <= i < q => Bit(t.cells[n - 1 + i])))
  {
    hide Hears, CellsOf;
    Places(n);
    var area := if kind == 0 then Coils else Inputs;
    PresentIsInside(s, area, n - 1, q);
    if 0 < q && n - 1 + q <= |t.cells| {
      BitsThere(s, t, area, n - 1, q);
    }
  }

  lemma BitsThere(s: Store, t: Table<bool>, area: Area, from: nat, q: nat)
    requires (area == Coils && t == s.coils) || (area == Inputs && t == s.inputs)
    requires from + q <= |t.cells|
    ensures Present(CellsOf(s), area, from, q)
    ensures Lookup(CellsOf(s), area, from, q) == seq(q, i requires 0 <= i < q => Bit(t.cells[from + i]))
  {
  }

  /** Input and holding registers. */
  lemma ReadRegistersOf(s: Store, t: Table<bv16>, reach: Reach, slave: int, kind: nat, n: nat, q: nat)
    requires 1 <= n < 0x1_0000 && ((kind == 3 && t == s.inputRegs) || (kind == 4 && t == s.holding))
    ensures var o := PlainRead(Abstract(s), reach, slave, 0x1_0000 * kind + n, q);
      if slave == 0 || q > 125 then o == Failed(-1)
      else if !Hears(reach, slave) then o == Failed(-104)
      else if q == 0 then o == Failed(-3)
      else if n - 1 + q > |t.cells| then o == Failed(-2)
      else if !t.canGet then o == Failed(-1)
      else if t.getAnswer != 0 then o == Failed(t.getAnswer)
      else o == Values(seq(q, i requires 0 <= i < q => Reg(t.cells[n - 1 + i])))
  {
    hide Hears, CellsOf;
    Places(n);
    var area := if kind == 3 then InputRegs else Holding;
    PresentIsInside(s, area, n - 1, q);
    if 0 < q && n - 1 + q <= |t.cells| {
      RegistersThere(s, t, area, n - 1, q);
    }
  }

  lemma RegistersThere(s: Store, t: Table<bv16>, area: Area, from: nat, q: nat)
    requires (area == InputRegs && t == s.inputRegs) || (area == Holding && t == s.holding)
    requires from + q <= |t.cells|
    ensures Present(CellsOf(s), area, from, q)
    ensures Lookup(CellsOf(s), area, from, q) == seq(q, i requires 0 <= i < q => Reg(t.cells[from + i]))
  {
  }

  /** What lies in the caller's buffer after a read of bits that returned 0, which it does exactly when
      there is nothing against it. */
  lemma BitsArrive(s: Store, t: Table<bool>, reach: Reach, slave: int, kind: nat, n: nat, q: nat,
        result: int, before: seq<bv8>, after: seq<bv8>)
    requires 1 <= n < 0x1_0000 && ((kind == 0 && t == s.coils) || (kind == 1 && t == s.inputs))
    requires var a := 0x1_0000 * kind + n;
      Delivered(result, before, after, PlaceOf(a), q, PlainRead(Abstract(s), reach, slave, a, q))
    ensures result == 0 <==>
      slave != 0 && Hears(reach, slave) && 0 < q <= 2000 && n - 1 + q <= |t.cells| && t.canGet && t.getAnswer == 0
    ensures result == 0 ==>
      (q + 7) / 8 <= |after| == |before| && after[(q + 7) / 8..] == before[(q + 7) / 8..]
      && forall i :: 0 <= i < q ==> (HasPower(after[i / 8] as int, i % 8) <==> t.cells[n - 1 + i])
    ensures result != 0 ==> after == before
  {
    hide PlainRead, CellsIn, Abstract, Hears, HasPower;
    ReadBitsOf(s, t, reach, slave, kind, n, q);
    Places(n);
    if result == 0 {
      forall i | 0 <= i < q ensures HasPower(after[i / 8] as int, i % 8) <==> t.cells[n - 1 + i] {
        BufferCells(after, q, i);
      }
    }
  }

  lemma RegistersArrive(s: Store, t: Table<bv16>, reach: Reach, slave: int, kind: nat, n: nat, q: nat,
        result: int, before: seq<bv8>, after: seq<bv8>)
    requires 1 <= n < 0x1_0000 && ((kind == 3 && t == s.inputRegs) || (kind == 4 && t == s.holding))
    requires var a := 0x1_0000 * kind + n;
      Delivered(result, before, after, PlaceOf(a), q, PlainRead(Abstract(s), reach, slave, a, q))
    ensures result == 0 <==>
      slave != 0 && Hears(reach, slave) && 0 < q <= 125 && n - 1 + q <= |t.cells| && t.canGet && t.getAnswer == 0
    ensures result == 0 ==>
      2 * q <= |after| == |before| && after[2 * q..] == before[2 * q..]
      && forall i :: 0 <= i < q ==> after[2 * i] as int + 256 * after[2 * i + 1] as int == t.cells[n - 1 + i] as int
    ensures result != 0 ==> after == before
  {
    hide PlainRead, CellsIn, Abstract, Hears;
    ReadRegistersOf(s, t, reach, slave, kind, n, q);
    Places(n);
    if result == 0 {
      forall i | 0 <= i < q
        ensures after[2 * i] as int + 256 * after[2 * i + 1] as int == t.cells[n - 1 + i] as int
      {
        BufferCells(after, q, i);
      }
    }
  }

  // ---- writes --------------------------------------------------------------------------------------

  /** What a write answers, if the slave is asked, and why it is refused. */
  function Verdict(size: nat, canSet: bool, setAnswer: int, from: nat, q: nat): int {
    if q == 0 then -3 else if from + q > size then -2 else if !canSet then -1 else setAnswer
  }

  function WriteOutcome(reach: Reach, slave: int, verdict: int): Outcome {
    if Hears(reach, slave) then (if verdict == 0 then Done else Failed(verdict))
    else if slave == 0 then Done
    else Failed(-104)
  }

  /** What a write of vals that is sent does to the memory, and what it answers. */
  lemma ChangeSent(s: Store, reach: Reach, slave: int, area: Area, from: nat, vals: seq<Cell>)
    ensures var m := Abstract(s);
      var rights := RightsOf(m, area);
      var verdict := Verdict(Size(s, area), rights.canSet, rights.setAnswer, from, |vals|);
      var (m', o) := Deliver(m, reach, slave, Change(m, area, from, vals));
      && o == WriteOutcome(reach, slave, verdict)
      && m'.cells == Update(CellsOf(s), area, from,
           if verdict == 0 && (Hears(reach, slave) || ToAll(reach, slave)) then vals else [])
  {
    hide Hears, ToAll, CellsOf, Present, Size, Update;
    PresentIsInside(s, area, from, |vals|);
    UpdateNone(CellsOf(s), area, from);
  }

  /** The coils of s' are those of s but for bits from a cell on, and the other cells are the same. */
  predicate OnlyCoils(s: Store, s': Store, from: nat, bits: seq<bool>) {
    && |s'.coils.cells| == |s.coils.cells| && s'.inputs.cells == s.inputs.cells
    && s'.inputRegs.cells == s.inputRegs.cells && s'.holding.cells == s.holding.cells
    && forall k :: 0 <= k < |s.coils.cells| ==>
         s'.coils.cells[k] == if from <= k < from + |bits| then bits[k - from] else s.coils.cells[k]
  }

  /** The holding registers, by value. */
  predicate OnlyHolding(s: Store, s': Store, from: nat, values: seq<nat>) {
    && |s'.holding.cells| == |s.holding.cells| && s'.inputs.cells == s.inputs.cells
    && s'.inputRegs.cells == s.inputRegs.cells && s'.coils.cells == s.coils.cells
    && forall k :: 0 <= k < |s.holding.cells| ==>
         s'.holding.cells[k] as int ==
           if from <= k < from + |values| then values[k - from] else s.holding.cells[k] as int
  }

  lemma CoilsOnly(s: Store, s': Store, from: nat, vals: seq<Cell>, bits: seq<bool>)
    requires CellsOf(s') == Update(CellsOf(s), Coils, from, vals)
    requires |bits| == |vals| && forall i :: 0 <= i < |vals| ==> vals[i] == Bit(bits[i])
    ensures OnlyCoils(s, s', from, bits)
  {
    CellsBack(s, s', Coils, from, vals);
    hide CellsOf, Update;
    SameOthers(s, s', Coils, from, vals);
    forall k | 0 <= k < |s.coils.cells|
      ensures s'.coils.cells[k] == if from <= k < from + |bits| then bits[k - from] else s.coils.cells[k]
    {
      assert CellAt(s', Key(Coils, k)) == Bit(s'.coils.cells[k]) && CellAt(s, Key(Coils, k)) == Bit(s.coils.cells[k]);
    }
  }

  lemma HoldingOnly(s: Store, s': Store, from: nat, vals: seq<Cell>, values: seq<nat>)
    requires CellsOf(s') == Update(CellsOf(s), Holding, from, vals)
    requires |values| == |vals|
    requires forall i :: 0 <= i < |vals| ==> vals[i].Reg? && vals[i].word as int == values[i]
    ensures OnlyHolding(s, s', from, values)
  {
    CellsBack(s, s', Holding, from, vals);
    hide CellsOf, Update;
    SameOthers(s, s', Holding, from, vals);
    forall k | 0 <= k < |s.holding.cells|
      ensures s'.holding.cells[k] as int ==
        if from <= k < from + |values| then values[k - from] else s.holding.cells[k] as int
    {
      assert CellAt(s', Key(Holding, k)) == Reg(s'.holding.cells[k]);
      assert CellAt(s, Key(Holding, k)) == Reg(s.holding.cells[k]);
    }
  }

  lemma SameOthers(s: Store, s': Store, area: Area, from: nat, vals: seq<Cell>)
    requires forall a :: Size(s', a) == Size(s, a)
    requires forall k: Key :: 0 <= k.index < Size(s, k.area) ==>
      CellAt(s', k) ==
        if k.area == area && from <= k.index < from + |vals| then vals[k.index - from] else CellAt(s, k)
    ensures |s'.coils.cells| == |s.coils.cells| && |s'.holding.cells| == |s.holding.cells|
    ensures area != Coils ==> s'.coils.cells == s.coils.cells
    ensures area != Inputs ==> s'.inputs.cells == s.inputs.cells
    ensures area != InputRegs ==> s'.inputRegs.cells == s.inputRegs.cells
    ensures area != Holding ==> s'.holding.cells == s.holding.cells
  {
    assert Size(s', Coils) == Size(s, Coils) && Size(s', Inputs) == Size(s, Inputs);
    assert Size(s', InputRegs) == Size(s, InputRegs) && Size(s', Holding) == Size(s, Holding);
    forall i | 0 <= i < |s.coils.cells| && area != Coils ensures s'.coils.cells[i] == s.coils.cells[i] {
      assert CellAt(s', Key(Coils, i)) == CellAt(s, Key(Coils, i));
    }
    forall i | 0 <= i < |s.inputs.cells| && area != Inputs ensures s'.inputs.cells[i] == s.inputs.cells[i] {
      assert CellAt(s', Key(Inputs, i)) == CellAt(s, Key(Inputs, i));
    }
    forall i | 0 <= i < |s.inputRegs.cells| && area != InputRegs ensures s'.inputRegs.cells[i] == s.inputRegs.cells[i] {
      assert CellAt(s', Key(InputRegs, i)) == CellAt(s, Key(InputRegs, i));
    }
    forall i | 0 <= i < |s.holding.cells| && area != Holding ensures s'.holding.cells[i] == s.holding.cells[i] {
      assert CellAt(s', Key(Holding, i)) == CellAt(s, Key(Holding, i));
    }
  }

  /** A write of data to q coils from number n on, and the tables s' it leaves: each coil takes its bit,
      if the slave hears it and its verdict is good; nothing else changes. */
  lemma WriteCoilsOf(s: Store, s': Store, reach: Reach, slave: int, n: nat, q: nat, data: seq<bv8>)
    requires 1 <= n < 0x1_0000 && (q <= 1968 ==> (q + 7) / 8 <= |data|)
    requires Abstract(s') == PlainWrite(Abstract(s), reach, slave, n, q, data).0
    ensures var verdict := Verdict(|s.coils.cells|, s.coils.canSet, s.coils.setAnswer, n - 1, q);
      && PlainWrite(Abstract(s), reach, slave, n, q, data).1 ==
           (if q > 1968 then Failed(-1) else WriteOutcome(reach, slave, verdict))
      && OnlyCoils(s, s', n - 1,
           if q <= 1968 && verdict == 0 && (Hears(reach, slave) || ToAll(reach, slave)) then
             seq(q, i requires 0 <= i < q => HasPower(data[i / 8] as int, i % 8))
           else [])
  {
    hide Hears, ToAll, CellsOf, CellsIn, Deliver, HasPower, Update, OnlyCoils;
    Places(n);
    if q > 1968 {
      UpdateNone(CellsOf(s), Coils, n - 1);
      CoilsOnly(s, s', n - 1, [], []);
    } else {
      var vals := CellsIn(data, Coils, q);
      forall i | 0 <= i < q ensures vals[i] == Bit(HasPower(data[i / 8] as int, i % 8)) {
        BufferCells(data, q, i);
      }
      ChangeSent(s, reach, slave, Coils, n - 1, vals);
      var verdict := Verdict(|s.coils.cells|, s.coils.canSet, s.coils.setAnswer, n - 1, q);
      if verdict == 0 && (Hears(reach, slave) || ToAll(reach, slave)) {
        CoilsOnly(s, s', n - 1, vals, seq(q, i requires 0 <= i < q => HasPower(data[i / 8] as int, i % 8)));
      } else {
        CoilsOnly(s, s', n - 1, [], []);
      }
    }
  }

  lemma WriteHoldingOf(s: Store, s': Store, reach: Reach, slave: int, n: nat, q: nat, data: seq<bv8>)
    requires 1 <= n < 0x1_0000 && (q <= 123 ==> 2 * q <= |data|)
    requires Abstract(s') == PlainWrite(Abstract(s), reach, slave, 0x4_0000 + n, q, data).0
    ensures var verdict := Verdict(|s.holding.cells|, s.holding.canSet, s.holding.setAnswer, n - 1, q);
      && PlainWrite(Abstract(s), reach, slave, 0x4_0000 + n, q, data).1 ==
           (if q > 123 then Failed(-1) else WriteOutcome(reach, slave, verdict))
      && OnlyHolding(s, s', n - 1,
           if q <= 123 && verdict == 0 && (Hears(reach, slave) || ToAll(reach, slave)) then
             seq(q, i requires 0 <= i < q => data[2 * i] as int + 256 * data[2 * i + 1] as int)
           else [])
  {
    hide Hears, ToAll, CellsOf, CellsIn, Deliver, Update, OnlyHolding;
    Places(n);
    if q > 123 {
      UpdateNone(CellsOf(s), Holding, n - 1);
      HoldingOnly(s, s', n - 1, [], []);
    } else {
      var vals := CellsIn(data, Holding, q);
      var values: seq<nat> := seq(q, i requires 0 <= i < q => data[2 * i] as int + 256 * data[2 * i + 1] as int);
      forall i | 0 <= i < q ensures vals[i].Reg? && vals[i].word as int == values[i] {
        BufferCells(data, q, i);
      }
      ChangeSent(s, reach, slave, Holding, n - 1, vals);
      var verdict := Verdict(|s.holding.cells|, s.holding.canSet, s.holding.setAnswer, n - 1, q);
      if verdict == 0 && (Hears(reach, slave) || ToAll(reach, slave)) {
        HoldingOnly(s, s', n - 1, vals, values);
      } else {
        HoldingOnly(s, s', n - 1, [], []);
      }
    }
  }

  /** A single coil: any value but 0 sets it. */
  lemma WriteCoilOf(s: Store, s': Store, reach: Reach, slave: int, n: nat, value: uint16)
    requires 1 <= n < 0x1_0000
    requires Abstract(s') == PlainWriteSingle(Abstract(s), reach, slave, n, value).0
    ensures var verdict := Verdict(|s.coils.cells|, s.coils.canSet, s.coils.setAnswer, n - 1, 1);
      && PlainWriteSingle(Abstract(s), reach, slave, n, value).1 == WriteOutcome(reach, slave, verdict)
      && OnlyCoils(s, s', n - 1,
           if verdict == 0 && (Hears(reach, slave) || ToAll(reach, slave)) then [value != 0] else [])
  {
    hide Hears, ToAll, CellsOf, Deliver, Update, OnlyCoils;
    Places(n);
    var vals := [Bit(value != 0)];
    ChangeSent(s, reach, slave, Coils, n - 1, vals);
    var verdict := Verdict(|s.coils.cells|, s.coils.canSet, s.coils.setAnswer, n - 1, 1);
    if verdict == 0 && (Hears(reach, slave) || ToAll(reach, slave)) {
      CoilsOnly(s, s', n - 1, vals, [value != 0]);
    } else {
      CoilsOnly(s, s', n - 1, [], []);
    }
  }

  /** A single register takes the value. */
  lemma WriteRegisterOf(s: Store, s': Store, reach: Reach, slave: int, n: nat, value: uint16)
    requires 1 <= n < 0x1_0000
    requires Abstract(s') == PlainWriteSingle(Abstract(s), reach, slave, 0x4_0000 + n, value).0
    ensures var verdict := Verdict(|s.holding.cells|, s.holding.canSet, s.holding.setAnswer, n - 1, 1);
      && PlainWriteSingle(Abstract(s), reach, slave, 0x4_0000 + n, value).1 == WriteOutcome(reach, slave, verdict)
      && OnlyHolding(s, s', n - 1,
           if verdict == 0 && (Hears(reach, slave) || ToAll(reach, slave)) then [value] else [])
  {
    hide Hears, ToAll, CellsOf, Deliver, Update, OnlyHolding, WordOf;
    Places(n);
    WordOfValue(value);
    var vals := [Reg(WordOf(value))];
    ChangeSent(s, reach, slave, Holding, n - 1, vals);
    var verdict := Verdict(|s.holding.cells|, s.holding.canSet, s.holding.setAnswer, n - 1, 1);
    if verdict == 0 && (Hears(reach, slave) || ToAll(reach, slave)) {
      HoldingOnly(s, s', n - 1, vals, [value]);
    } else {
      HoldingOnly(s, s', n - 1, [], []);
    }
  }

  /** The places a call for q cells from a on is about. */
  predicate Covers(a: nat, q: nat, area: Area, index: nat) {
    PlaceOf(a).At? && PlaceOf(a).area == area && PlaceOf(a).index <= index < PlaceOf(a).index + q
  }

  /** A single coil that was written is read back, and no other place reads otherwise. */
  lemma CoilReadsBack(m: Memory, reach: Reach, slave: int, n: nat, value: uint16, a: nat, q: nat)
    requires 1 <= n < 0x1_0000 && slave != 0 && Hears(reach, slave)
    requires PlainWriteSingle(m, reach, slave, n, value).1 == Done
    ensures var m' := PlainWriteSingle(m, reach, slave, n, value).0;
      && (m.coils.canGet && m.coils.getAnswer == 0 ==>
            PlainRead(m', reach, slave, n, 1) == Values([Bit(value != 0)]))
      && (!Covers(a, q, Coils, n - 1) ==> PlainRead(m', reach, slave, a, q) == PlainRead(m, reach, slave, a, q))
  {
    hide Hears, ToAll;
    Places(n);
    OthersRead(m, reach, slave, Coils, n - 1, Bit(value != 0), a, q);
  }

  lemma RegisterReadsBack(m: Memory, reach: Reach, slave: int, n: nat, value: uint16, a: nat, q: nat)
    requires 1 <= n < 0x1_0000 && slave != 0 && Hears(reach, slave)
    requires PlainWriteSingle(m, reach, slave, 0x4_0000 + n, value).1 == Done
    ensures var m' := PlainWriteSingle(m, reach, slave, 0x4_0000 + n, value).0;
      && (m.holding.canGet && m.holding.getAnswer == 0 ==>
            var o := PlainRead(m', reach, slave, 0x4_0000 + n, 1);
            o.Values? && |o.cells| == 1 && o.cells[0].Reg? && o.cells[0].word as int == value)
      && (!Covers(a, q, Holding, n - 1) ==> PlainRead(m', reach, slave, a, q) == PlainRead(m, reach, slave, a, q))
  {
    hide Hears, ToAll, WordOf;
    Places(n);
    WordOfValue(value);
    OthersRead(m, reach, slave, Holding, n - 1, Reg(WordOf(value)), a, q);
  }

  lemma OthersRead(m: Memory, reach: Reach, slave: int, area: Area, index: nat, cell: Cell, a: nat, q: nat)
    ensures var m' := m.(cells := Update(m.cells, area, index, [cell]));
      && (Present(m.cells, area, index, 1) ==>
            Present(m'.cells, area, index, 1) && Lookup(m'.cells, area, index, 1) == [cell])
      && (!Covers(a, q, area, index) ==> PlainRead(m', reach, slave, a, q) == PlainRead(m, reach, slave, a, q))
  {
    hide Hears;
    var m', p := m.(cells := Update(m.cells, area, index, [cell])), PlaceOf(a);
    if p.At? && !Covers(a, q, area, index) {
      assert Present(m'.cells, p.area, p.index, q) <==> Present(m.cells, p.area, p.index, q);
      if Present(m.cells, p.area, p.index, q) {
        assert Lookup(m'.cells, p.area, p.index, q) == Lookup(m.cells, p.area, p.index, q);
      }
    }
  }

  // ---- runs -----------------------------------------------------------------------------------------

  /** The user's callbacks for one area answer otherwise, and nothing else changes. */
  lemma CallbacksChange(m: Memory, reach: Reach, area: Area, other: Area, getAnswer: int, setAnswer: int)
    requires IsAnswer(getAnswer) && IsAnswer(setAnswer)
    ensures var (m', o) := Plain(m, reach, Callbacks(area, getAnswer, setAnswer));
      && o == Done && m'.cells == m.cells
      && RightsOf(m', area).getAnswer == getAnswer && RightsOf(m', area).setAnswer == setAnswer
      && RightsOf(m', area).canGet == RightsOf(m, area).canGet && RightsOf(m', area).canSet == RightsOf(m, area).canSet
      && (other != area ==> RightsOf(m', other) == RightsOf(m, other))
  {
  }

  /** In a run every call finds the memory that the calls before it have left; a read leaves it alone. */
  lemma {:induction false} CallsInOrder(m: Memory, reach: Reach, calls: seq<Call>, i: nat)
    requires forall k :: 0 <= k < |calls| ==> Sound(calls[k])
    requires i < |calls|
    ensures PlainRun(m, reach, []) == (m, [])
    ensures |PlainRun(m, reach, calls).1| == |calls|
    ensures var before := PlainRun(m, reach, calls[..i]).0;
      && PlainRun(m, reach, calls[..i + 1]).0 == Plain(before, reach, calls[i]).0
      && PlainRun(m, reach, calls).1[i] == Plain(before, reach, calls[i]).1
      && (calls[i].Read? ==> Plain(before, reach, calls[i]).0 == before)
  {
    hide PlainRead, PlainWrite, PlainWriteSingle, Answering, Sound;
    var n := |calls| - 1;
    assert calls[..i + 1][..i] == calls[..i];
    RunLength(m, reach, calls);
    if i < n {
      CallsInOrder(m, reach, calls[..n], i);
      assert calls[..n][..i] == calls[..i] && calls[..n][..i + 1] == calls[..i + 1];
    } else {
      assert calls[..i + 1] == calls;
    }
  }

  lemma {:induction false} RunLength(m: Memory, reach: Reach, calls: seq<Call>)
    requires forall k :: 0 <= k < |calls| ==> Sound(calls[k])
    ensures |PlainRun(m, reach, calls).1| == |calls|
  {
    hide Plain, Sound;
    if calls != [] {
      RunLength(m, reach, calls[..|calls| - 1]);
    }
  }

  /** Nothing else can be written. */
  lemma WriteElsewhere(m: Memory, reach: Reach, slave: int, a: nat, q: nat, data: seq<bv8>, value: uint16)
    requires 0x1_0000 <= a < 0x4_0000 || 0x5_0000 <= a
    ensures PlainWrite(m, reach, slave, a, q, data) == (m, Failed(-1))
    ensures PlainWriteSingle(m, reach, slave, a, value) == (m, Failed(-1))
  {
  }

  lemma UpdateNone(cells: Cells, area: Area, index: int)
    ensures Update(cells, area, index, []) == cells
  {
  }

  /** The tables of a memory that was updated. */
  lemma CellsBack(s: Store, s': Store, area: Area, index: nat, vals: seq<Cell>)
    requires CellsOf(s') == Update(CellsOf(s), area, index, vals)
    ensures forall a :: Size(s', a) == Size(s, a)
    ensures forall k: Key :: 0 <= k.index < Size(s, k.area) ==>
      CellAt(s', k) ==
        if k.area == area && index <= k.index < index + |vals| then vals[k.index - index] else CellAt(s, k)
  {
    hide Size, CellAt;
    assert Keys(s') == CellsOf(s').Keys == CellsOf(s).Keys == Keys(s);
    forall a ensures Size(s', a) == Size(s, a) {
      assert Key(a, Size(s, a)) !in Keys(s) && Key(a, Size(s', a)) !in Keys(s');
    }
    forall k: Key | 0 <= k.index < Size(s, k.area)
      ensures CellAt(s', k) == CellsOf(s')[k] && CellAt(s, k) == CellsOf(s)[k]
    {
      assert k in Keys(s) && k in Keys(s');
    }
  }
}
