/** The producer/consumer protocol over two pipes: tokens for empty slots in one, items of
    four bytes in the other. */
module ProducerConsumer {
  import opened CircularBuffer
  import Pipe

  const ITEM_SIZE: nat := 4
  const EMPTY_SLOT: Byte := 69

  /** The initial loop, on the pipe object: one token per slot. */
  method FillEmptySlots(pipe: Pipe.Fifo, bufSize: nat)
    requires pipe.Valid() && pipe.Bytes() == [] && pipe.readers == [] && bufSize <= BUF_SIZE
    modifies pipe, pipe.buffer, pipe.buffer.data
    ensures pipe.Valid() && pipe.readers == []
    ensures pipe.Bytes() == Tokens(bufSize)
  {
    for i := 0 to bufSize
      invariant pipe.Valid() && pipe.readers == [] && pipe.Bytes() == Tokens(i)
    {
      var n := pipe.FifoWrite([EMPTY_SLOT], 1, Pipe.Before([], map[]));
      assert [EMPTY_SLOT][..n.value] == [EMPTY_SLOT];
      assert Tokens(i) + [EMPTY_SLOT] == Tokens(i + 1);
    }
  }

  function Tokens(n: nat): seq<Byte> {
    seq(n, _ => EMPTY_SLOT)
  }

  datatype Producer = WantToken | TokenBlocked | HasToken
  datatype Consumer = WantItem | ItemBlocked | HasItem

  /** `produced` is history; what the consumer received is `full.delivered`. */
  datatype State = State(
    empty: Pipe.State, full: Pipe.State, prod: Producer, cons: Consumer, produced: seq<seq<Byte>>)

  datatype Label = ProducerRead | ProducerWrite(item: seq<Byte>) | ConsumerRead | ConsumerWrite

  function Start(bufSize: nat): State {
    State(Pipe.INITIAL.(buffer := Tokens(bufSize), accepted := Tokens(bufSize)), Pipe.INITIAL, WantToken, WantItem, [])
  }

  /** The next write meets a pipe that cannot take all of it. */
  predicate Overruns(s: State) {
    || (s.prod.HasToken? && |s.full.buffer| + ITEM_SIZE > BUF_SIZE)
    || (s.cons.HasItem? && |s.empty.buffer| + 1 > BUF_SIZE)
  }

  predicate Enabled(s: State, l: Label) {
    match l
    case ProducerRead => s.prod.WantToken?
    case ProducerWrite(item) => s.prod.HasToken? && |item| == ITEM_SIZE && |s.full.buffer| < BUF_SIZE
    case ConsumerRead => s.cons.WantItem?
    case ConsumerWrite => s.cons.HasItem? && |s.empty.buffer| < BUF_SIZE
  }

  /** A read returns at once or blocks; a write that serves a blocked reader wakes it. */
  function Step(s: State, l: Label): State
    requires Enabled(s, l)
  {
    match l
    case ProducerRead =>
      var empty := Pipe.Step(s.empty, Pipe.Read(1));
      s.(empty := empty, prod := if |empty.delivered| > |s.empty.delivered| then HasToken else TokenBlocked)
    case ProducerWrite(item) =>
      var full := Pipe.Step(s.full, Pipe.Write(item));
      s.(full := full, prod := WantToken, produced := s.produced + [item],
         cons := if |full.delivered| > |s.full.delivered| then HasItem else s.cons)
    case ConsumerRead =>
      var full := Pipe.Step(s.full, Pipe.Read(ITEM_SIZE));
      s.(full := full, cons := if |full.delivered| > |s.full.delivered| then HasItem else ItemBlocked)
    case ConsumerWrite =>
      var empty := Pipe.Step(s.empty, Pipe.Write([EMPTY_SLOT]));
      s.(empty := empty, cons := WantItem,
         prod := if |empty.delivered| > |s.empty.delivered| then HasToken else s.prod)
  }

  ghost predicate Legal(s: State, ls: seq<Label>)
    decreases |ls|
  {
    ls == [] || (Enabled(s, ls[0]) && Legal(Step(s, ls[0]), ls[1..]))
  }

  ghost function After(s: State, ls: seq<Label>): State
    requires Legal(s, ls)
    decreases |ls|
  {
    if ls == [] then s else After(Step(s, ls[0]), ls[1..])
  }

  // ---------------------------------------------------------------------------
  // Conservation

  predicate WholeItems(items: seq<seq<Byte>>) {
    forall i :: 0 <= i < |items| ==> |items[i]| == ITEM_SIZE
  }

  function TokensHeld(s: State): nat {
    (if s.prod.HasToken? then 1 else 0) + (if s.cons.HasItem? then 1 else 0)
  }

  /** Every slot is an empty token, a token in the producer's hand, a whole item in the full
      pipe, or an item in the consumer's hand. */
  predicate Conserved(s: State, bufSize: nat) {
    ITEM_SIZE * (|s.empty.buffer| + TokensHeld(s)) + |s.full.buffer| == ITEM_SIZE * bufSize
  }

  /** What holds between the two processes and their pipes. */
  ghost predicate Protocol(s: State, bufSize: nat) {
    && Conserved(s, bufSize)
    && s.empty.waiting == (if s.prod.TokenBlocked? then [1] else [])
    && s.full.waiting == (if s.cons.ItemBlocked? then [ITEM_SIZE] else [])
    && WholeItems(s.full.delivered) && WholeItems(s.produced)
    && Pipe.Flatten(s.produced) == s.full.accepted
    && OnlyTokens(s.empty.buffer) && (forall i :: 0 <= i < |s.empty.delivered| ==> OnlyTokens(s.empty.delivered[i]))
  }

  predicate OnlyTokens(bytes: seq<Byte>) {
    forall i :: 0 <= i < |bytes| ==> bytes[i] == EMPTY_SLOT
  }

  ghost predicate Inv(s: State, bufSize: nat) {
    Pipe.Inv(s.empty) && Pipe.Inv(s.full) && Protocol(s, bufSize)
  }

  predicate WaitsOnlyEmpty(p: Pipe.State) {
    p.waiting != [] ==> p.buffer == []
  }

  /** A pipe that one process reads and one writes, in units of n bytes: a write goes to the
      blocked reader if there is one, else to the buffer. */
  lemma UnitWrite(p: Pipe.State, data: seq<Byte>)
    requires WaitsOnlyEmpty(p) && data != [] && |p.buffer| + |data| <= BUF_SIZE
    requires p.waiting == [] || p.waiting == [|data|]
    ensures var p' := Pipe.Step(p, Pipe.Write(data));
            && p'.accepted == p.accepted + data && p'.waiting == []
            && (p.waiting == [] ==> p'.buffer == p.buffer + data && p'.delivered == p.delivered)
            && (p.waiting != [] ==> p'.buffer == [] && p'.delivered == p.delivered + [data])
  {
    assert data[..|data|] == data;
    var b := p.buffer + data;
    if p.waiting == [] {
      assert Pipe.Serve(b, []) == Pipe.Served([], b);
    } else {
      assert p.buffer == [] && b == data;
      assert Pipe.Serve(data[|data|..], [|data|][1..]) == Pipe.Served([], []);
      assert Pipe.Serve(data, [|data|]) == Pipe.Served([data], []);
    }
  }

  /** A read by the only reader: the unit at the front of the buffer, or it is the one waiting. */
  lemma UnitRead(p: Pipe.State, n: nat)
    requires p.waiting == [] && n > 0 && (p.buffer == [] || n <= |p.buffer|)
    ensures var p' := Pipe.Step(p, Pipe.Read(n));
            && p'.accepted == p.accepted
            && (p.buffer == [] ==> p'.buffer == [] && p'.waiting == [n] && p'.delivered == p.delivered)
            && (p.buffer != [] ==>
                 && p'.buffer == p.buffer[n..] && p'.waiting == []
                 && p'.delivered == p.delivered + [p.buffer[..n]])
  {
    assert p.waiting + [n] == [n];
  }

  lemma FlattenSnoc(items: seq<seq<Byte>>, item: seq<Byte>)
    ensures Pipe.Flatten(items + [item]) == Pipe.Flatten(items) + item
  {
    Pipe.FlattenAppend(items, [item]);
    assert [item][1..] == [] && Pipe.Flatten([item]) == item;
  }

  lemma ProducerReadKeepsProtocol(s: State, bufSize: nat)
    requires Protocol(s, bufSize) && Enabled(s, ProducerRead)
    ensures Protocol(Step(s, ProducerRead), bufSize)
  {
    UnitRead(s.empty, 1);
  }

  lemma ConsumerReadKeepsProtocol(s: State, bufSize: nat)
    requires Protocol(s, bufSize) && Enabled(s, ConsumerRead)
    ensures Protocol(Step(s, ConsumerRead), bufSize)
  {
    UnitRead(s.full, ITEM_SIZE);
  }

  lemma ProducerWriteKeepsProtocol(s: State, item: seq<Byte>, bufSize: nat)
    requires Protocol(s, bufSize) && bufSize <= 256 && Enabled(s, ProducerWrite(item)) && WaitsOnlyEmpty(s.full)
    ensures Protocol(Step(s, ProducerWrite(item)), bufSize)
  {
    UnitWrite(s.full, item);
    FlattenSnoc(s.produced, item);
  }

  lemma ConsumerWriteKeepsProtocol(s: State, bufSize: nat)
    requires Protocol(s, bufSize) && bufSize <= 256 && Enabled(s, ConsumerWrite) && WaitsOnlyEmpty(s.empty)
    ensures Protocol(Step(s, ConsumerWrite), bufSize)
  {
    UnitWrite(s.empty, [EMPTY_SLOT]);
  }

  lemma StepKeepsProtocol(s: State, l: Label, bufSize: nat)
    requires Inv(s, bufSize) && bufSize <= 256 && Enabled(s, l)
    ensures Protocol(Step(s, l), bufSize)
  {
    match l
    case ProducerRead => ProducerReadKeepsProtocol(s, bufSize);
    case ConsumerRead => ConsumerReadKeepsProtocol(s, bufSize);
    case ProducerWrite(item) => ProducerWriteKeepsProtocol(s, item, bufSize);
    case ConsumerWrite => ConsumerWriteKeepsProtocol(s, bufSize);
  }

  lemma StepKeepsPipes(s: State, l: Label)
    requires Pipe.Inv(s.empty) && Pipe.Inv(s.full) && Enabled(s, l)
    ensures Pipe.Inv(Step(s, l).empty) && Pipe.Inv(Step(s, l).full)
  {
    match l
    case ProducerRead => Pipe.StepKeepsInv(s.empty, Pipe.Read(1));
    case ConsumerRead => Pipe.StepKeepsInv(s.full, Pipe.Read(ITEM_SIZE));
    case ProducerWrite(item) => Pipe.StepKeepsInv(s.full, Pipe.Write(item));
    case ConsumerWrite => Pipe.StepKeepsInv(s.empty, Pipe.Write([EMPTY_SLOT]));
  }

  lemma StepKeepsInv(s: State, l: Label, bufSize: nat)
    requires Inv(s, bufSize) && bufSize <= 256 && Enabled(s, l)
    ensures Inv(Step(s, l), bufSize)
  {
    StepKeepsPipes(s, l);
    StepKeepsProtocol(s, l, bufSize);
  }

  lemma {:induction false} RunKeepsInv(s: State, ls: seq<Label>, bufSize: nat)
    requires Inv(s, bufSize) && bufSize <= 256 && Legal(s, ls)
    ensures Inv(After(s, ls), bufSize)
    decreases |ls|
  {
    if ls != [] {
      StepKeepsInv(s, ls[0], bufSize);
      RunKeepsInv(Step(s, ls[0]), ls[1..], bufSize);
    }
  }

  /** Whole items cut the byte stream back into the items that were produced. */
  lemma {:induction false} ItemsArePrefix(got: seq<seq<Byte>>, rest: seq<Byte>, made: seq<seq<Byte>>)
    requires WholeItems(got) && WholeItems(made) && Pipe.Flatten(got) + rest == Pipe.Flatten(made)
    ensures got <= made
    decreases |got|
  {
    if got != [] {
      var stream := Pipe.Flatten(made);
      assert stream == got[0] + (Pipe.Flatten(got[1..]) + rest);
      assert made != [];
      assert got[0] == stream[..ITEM_SIZE] == made[0];
      assert Pipe.Flatten(made[1..]) == stream[ITEM_SIZE..] == Pipe.Flatten(got[1..]) + rest;
      ItemsArePrefix(got[1..], rest, made[1..]);
      assert got == [got[0]] + got[1..] && made == [made[0]] + made[1..];
    }
  }

  /** For 1 to 256 slots, in every run: slots are conserved, no write is short or meets a full
      pipe, the consumer gets whole items, exactly the produced ones in order and at most
      bufSize behind, and the two sides are never both blocked. */
  lemma {:induction false} SlotsAreConserved(bufSize: nat, ls: seq<Label>)
    requires 1 <= bufSize <= 256 && Legal(Start(bufSize), ls)
    ensures var s := After(Start(bufSize), ls);
            && Conserved(s, bufSize)
            && !Overruns(s)
            && s.full.delivered <= s.produced && WholeItems(s.full.delivered)
            && (forall i :: 0 <= i < |s.empty.delivered| ==> OnlyTokens(s.empty.delivered[i]))
            && |s.produced| - |s.full.delivered| <= bufSize
            && !(s.prod.TokenBlocked? && s.cons.ItemBlocked?)
  {
    RunKeepsInv(Start(bufSize), ls, bufSize);
    var s := After(Start(bufSize), ls);
    ItemsArePrefix(s.full.delivered, s.full.buffer, s.produced);
    FlattenLength(s.produced);
    FlattenLength(s.full.delivered);
  }

  lemma {:induction false} FlattenLength(items: seq<seq<Byte>>)
    requires WholeItems(items)
    ensures |Pipe.Flatten(items)| == ITEM_SIZE * |items|
  {
    if items != [] {
      FlattenLength(items[1..]);
    }
  }

  // ---------------------------------------------------------------------------
  // 256 is the exact limit

  /** The initial loop, write by write: it never meets a full pipe. */
  ghost predicate FillIsLegal(bufSize: nat) {
    forall i :: 0 <= i < bufSize ==> |Tokens(i)| < BUF_SIZE
  }

  ghost predicate Safe(bufSize: nat) {
    FillIsLegal(bufSize) && forall ls :: Legal(Start(bufSize), ls) ==> !Overruns(After(Start(bufSize), ls))
  }

  /** The producer alone, k rounds. */
  lemma {:induction false} ProducerRuns(bufSize: nat, k: nat) returns (ls: seq<Label>)
    requires k <= 256 && k < bufSize <= BUF_SIZE
    ensures Legal(Start(bufSize), ls)
    ensures var s := After(Start(bufSize), ls);
            && s.prod.WantToken? && s.cons.WantItem?
            && |s.empty.buffer| == bufSize - k && |s.full.buffer| == ITEM_SIZE * k
            && s.empty.waiting == [] && s.full.waiting == []
    decreases k
  {
    if k == 0 {
      ls := [];
    } else {
      ls := ProducerRuns(bufSize, k - 1);
      var s := After(Start(bufSize), ls);
      Append(Start(bufSize), ls, ProducerRead);
      ls := ls + [ProducerRead];
      var s' := Step(s, ProducerRead);
      var item := [0, 0, 0, 0];
      assert item[..4] == item && Pipe.Serve(s'.full.buffer + item, []) == Pipe.Served([], s'.full.buffer + item);
      Append(Start(bufSize), ls, ProducerWrite(item));
      ls := ls + [ProducerWrite(item)];
    }
  }

  lemma {:induction false} Append(s: State, ls: seq<Label>, l: Label)
    requires Legal(s, ls) && Enabled(After(s, ls), l)
    ensures Legal(s, ls + [l]) && After(s, ls + [l]) == Step(After(s, ls), l)
    decreases |ls|
  {
    if ls == [] {
      assert [l][1..] == [] && Legal(Step(s, l), []);
    } else {
      Append(Step(s, ls[0]), ls[1..], l);
      assert (ls + [l])[1..] == ls[1..] + [l];
    }
  }

  lemma SafeExactlyUpTo256(bufSize: nat)
    requires 1 <= bufSize
    ensures Safe(bufSize) <==> bufSize <= 256
  {
    if bufSize <= 256 {
      forall ls | Legal(Start(bufSize), ls)
        ensures !Overruns(After(Start(bufSize), ls))
      {
        SlotsAreConserved(bufSize, ls);
      }
    } else if bufSize > BUF_SIZE {
      assert |Tokens(BUF_SIZE)| == BUF_SIZE;
    } else {
      var ls := ProducerRuns(bufSize, 256);
      Append(Start(bufSize), ls, ProducerRead);
      assert Overruns(After(Start(bufSize), ls + [ProducerRead]));
    }
  }
}
