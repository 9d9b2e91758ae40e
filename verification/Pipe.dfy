/** Named pipes: a circular buffer and a queue of blocked readers. In fifo_read, queueing the
    request, giving back the pipe's mutex and blocking are one step. */
module Pipe {
  import opened Common
  import opened CircularBuffer
  import opened LinkedQueue
  import P = Process

  // ---------------------------------------------------------------------------
  // send_to_readers as a function

  datatype Served = Served(deliveries: seq<seq<Byte>>, rest: seq<Byte>)

  /** Hands buffered bytes to waiting readers, first come first served, until the bytes or the
      readers run out. `sizes` is what they asked for. */
  function Serve(buffer: seq<Byte>, sizes: seq<nat>): Served
    decreases |sizes|
  {
    if sizes == [] || buffer == [] then Served([], buffer)
    else
      var n := Min(sizes[0], |buffer|);
      var later := Serve(buffer[n..], sizes[1..]);
      Served([buffer[..n]] + later.deliveries, later.rest)
  }

  function Flatten(parts: seq<seq<Byte>>): seq<Byte> {
    if parts == [] then [] else parts[0] + Flatten(parts[1..])
  }

  lemma {:induction false} FlattenAppend(a: seq<seq<Byte>>, b: seq<seq<Byte>>)
    ensures Flatten(a + b) == Flatten(a) + Flatten(b)
  {
    if a == [] {
      assert a + b == b;
    } else {
      FlattenAppend(a[1..], b);
      assert (a + b)[1..] == a[1..] + b;
      Associative(a[0], Flatten(a[1..]), Flatten(b));
    }
  }

  predicate AllPositive(sizes: seq<nat>) {
    forall i :: 0 <= i < |sizes| ==> sizes[i] > 0
  }

  /** No byte is lost, doubled or reordered. */
  lemma {:induction false} ServeConserves(buffer: seq<Byte>, sizes: seq<nat>)
    ensures Flatten(Serve(buffer, sizes).deliveries) + Serve(buffer, sizes).rest == buffer
    decreases |sizes|
  {
    if sizes != [] && buffer != [] {
      var n := Min(sizes[0], |buffer|);
      ServeConserves(buffer[n..], sizes[1..]);
      var later := Serve(buffer[n..], sizes[1..]);
      assert ([buffer[..n]] + later.deliveries)[1..] == later.deliveries;
    }
  }

  /** Each reader served gets what it asked for, or all that is left, at least one byte; a reader
      is left waiting only when no byte is left. */
  lemma {:induction false} ServeIsFair(buffer: seq<Byte>, sizes: seq<nat>)
    requires AllPositive(sizes)
    ensures var r := Serve(buffer, sizes);
            && |r.deliveries| <= |sizes|
            && (|r.deliveries| < |sizes| ==> r.rest == [])
            && (forall i :: 0 <= i < |r.deliveries| ==>
                 && 0 < |r.deliveries[i]| <= sizes[i]
                 && (|r.deliveries[i]| < sizes[i] ==> i == |r.deliveries| - 1 && r.rest == []))
    decreases |sizes|
  {
    if sizes != [] && buffer != [] {
      var n := Min(sizes[0], |buffer|);
      ServeIsFair(buffer[n..], sizes[1..]);
      if n < sizes[0] {
        assert buffer[n..] == [];
      }
    }
  }

  /** Serving `sizes` from `buffer`: `done` has been handed out, `b` and `sz` are left. */
  predicate InProgress(buffer: seq<Byte>, sizes: seq<nat>, done: seq<seq<Byte>>, b: seq<Byte>, sz: seq<nat>) {
    Serve(buffer, sizes) == Served(done + Serve(b, sz).deliveries, Serve(b, sz).rest)
  }

  lemma ServeRound(buffer: seq<Byte>, sizes: seq<nat>, done: seq<seq<Byte>>, b: seq<Byte>, sz: seq<nat>)
    requires InProgress(buffer, sizes, done, b, sz) && b != [] && sz != []
    ensures var n := Min(sz[0], |b|);
            InProgress(buffer, sizes, done + [b[..n]], b[n..], sz[1..])
  {
    var n := Min(sz[0], |b|);
    var later := Serve(b[n..], sz[1..]);
    assert done + ([b[..n]] + later.deliveries) == done + [b[..n]] + later.deliveries;
  }

  lemma ServeEnds(buffer: seq<Byte>, sizes: seq<nat>, done: seq<seq<Byte>>, b: seq<Byte>, sz: seq<nat>)
    requires InProgress(buffer, sizes, done, b, sz) && (b == [] || sz == [])
    ensures Serve(buffer, sizes) == Served(done, b)
  {
    assert done + [] == done;
  }

  // ---------------------------------------------------------------------------
  // The pipe object

  class ReadRequest {
    const bytes: nat
    const reader: P.Process
    var got: seq<Byte>

    constructor (bytes: nat, reader: P.Process)
      ensures this.bytes == bytes && this.reader == reader && got == []
    {
      this.bytes := bytes;
      this.reader := reader;
      got := [];
    }
  }

  function Sizes(rs: seq<ReadRequest>): (s: seq<nat>)
    ensures |s| == |rs| && forall i :: 0 <= i < |rs| ==> s[i] == rs[i].bytes
  {
    seq(|rs|, i requires 0 <= i < |rs| => rs[i].bytes)
  }

  /** unblock_process on a status, if `woken`. */
  function Woken(st: P.Status, woken: bool): P.Status {
    if woken && !st.Delete? then P.Ready else st
  }

  /** The processes behind the first k requests. */
  ghost function Readers(rs: seq<ReadRequest>, k: nat): set<P.Process>
    requires k <= |rs|
  {
    set i | 0 <= i < k :: rs[i].reader
  }

  lemma ReadersGrow(rs: seq<ReadRequest>, k: nat)
    requires k < |rs|
    ensures Readers(rs, k + 1) == Readers(rs, k) + {rs[k].reader}
  {}

  /** What a round of send_to_readers found: the requests' bytes and their processes' status. */
  datatype Before = Before(gots: seq<seq<Byte>>, was: map<P.Process, P.Status>)

  /** `readers` is the queue of blocked requests, which LinkedQueue.Queue stores. */
  class Fifo {
    const buffer: Buffer
    var readers: seq<ReadRequest>

    ghost predicate Valid()
      reads this, buffer
    {
      && buffer.Valid()
      && AllPositive(Sizes(readers))
      && (forall i, j :: 0 <= i < j < |readers| ==> readers[i] != readers[j])
    }

    ghost function Bytes(): seq<Byte>
      requires Valid()
      reads this, buffer, buffer.data
    {
      buffer.Contents()
    }

    constructor ()
      ensures Valid() && Bytes() == [] && readers == []
    {
      buffer := new Buffer();
      readers := [];
    }

    /** try_read: succeeds exactly if a byte is buffered. */
    method TryRead(r: ReadRequest) returns (ok: bool)
      requires Valid() && r.bytes > 0
      modifies buffer, r
      ensures Valid() && ok == (old(Bytes()) != [])
      ensures !ok ==> Bytes() == old(Bytes()) && r.got == old(r.got)
      ensures ok ==> var n := Min(r.bytes, |old(Bytes())|);
                     r.got == old(Bytes())[..n] && Bytes() == old(Bytes())[n..]
    {
      ok := buffer.fill > 0;
      if ok {
        var dest := buffer.Read(r.bytes);
        r.got := dest;
      }
    }

    /** One round of send_to_readers, for the first reader in the queue. */
    method ServeFirst() returns (ok: bool)
      requires Valid() && readers != []
      modifies this, buffer, readers[0], readers[0].reader
      ensures Valid() && ok == (old(Bytes()) != [])
      ensures !ok ==> Bytes() == old(Bytes()) && readers == old(readers)
                      && readers[0].reader.st == old(readers[0].reader.st) && readers[0].got == old(readers[0].got)
      ensures ok ==> var r := old(readers)[0];
                     var n := Min(r.bytes, |old(Bytes())|);
                     && r.got == old(Bytes())[..n] && Bytes() == old(Bytes())[n..]
                     && readers == old(readers)[1..]
                     && r.reader.st == Woken(old(readers[0].reader.st), true)
    {
      var r := readers[0];
      ok := TryRead(r);
      if ok {
        assert Sizes(readers[1..]) == Sizes(readers)[1..];
        readers := readers[1..];
        r.reader.Unblock();
      }
    }

    /** send_to_readers on the requests `rs`, with `bytes` buffered, has answered `done`. */
    ghost predicate Serving(bytes: seq<Byte>, rs: seq<ReadRequest>, done: seq<seq<Byte>>)
      reads this, buffer, buffer.data
    {
      && Valid() && |done| <= |rs| && readers == rs[|done|..]
      && InProgress(bytes, Sizes(rs), done, Bytes(), Sizes(readers))
    }

    /** `b` is what the requests hold and the status of at least their processes. */
    ghost predicate Snapshot(b: Before)
      reads this, readers, b.was.Keys
    {
      Handed(readers, [], b, {}) && forall i :: 0 <= i < |readers| ==> readers[i].reader in b.was
    }

    /** Of the requests `rs` the first ones hold the bytes in `done` and the others what they held
        before; of the processes exactly those in `woken` were unblocked. */
    ghost predicate Handed(rs: seq<ReadRequest>, done: seq<seq<Byte>>, b: Before, woken: set<P.Process>)
      reads rs, b.was.Keys
    {
      && |done| <= |rs| == |b.gots|
      && (forall i :: 0 <= i < |rs| ==> rs[i].got == if i < |done| then done[i] else b.gots[i])
      && (forall p :: p in b.was ==> p.st == Woken(b.was[p], p in woken))
    }

    method ServeNext(ghost bytes: seq<Byte>, ghost rs: seq<ReadRequest>, ghost done: seq<seq<Byte>>,
                     ghost b: Before, ghost woken: set<P.Process>)
      returns (more: bool, ghost done': seq<seq<Byte>>)
      requires Serving(bytes, rs, done) && Handed(rs, done, b, woken) && |done| < |rs|
      requires forall i, j :: 0 <= i < j < |rs| ==> rs[i] != rs[j]
      modifies this, buffer, rs[|done|], rs[|done|].reader
      ensures Serving(bytes, rs, done')
      ensures |done'| == |done| + if more then 1 else 0
      ensures Handed(rs, done', b, if more then woken + {rs[|done|].reader} else woken)
      ensures !more ==> Bytes() == []
    {
      ghost var had, sz, k := Bytes(), Sizes(readers), |done|;
      assert Sizes(readers[1..]) == sz[1..] && rs[k..][1..] == rs[k + 1..];
      assert readers[0] == rs[k];
      more := ServeFirst();
      done' := done;
      if more {
        ServeRound(bytes, Sizes(rs), done, had, sz);
        done' := done + [rs[k].got];
      }
    }

    /** The loop. */
    method ServeAll(ghost bytes: seq<Byte>, ghost rs: seq<ReadRequest>, ghost b: Before)
      returns (ghost done: seq<seq<Byte>>)
      requires Serving(bytes, rs, []) && Handed(rs, [], b, {})
      requires forall i, j :: 0 <= i < j < |rs| ==> rs[i] != rs[j]
      requires forall i :: 0 <= i < |rs| ==> rs[i].reader in b.was
      modifies this, buffer, rs, b.was.Keys
      ensures Serving(bytes, rs, done) && (readers == [] || Bytes() == [])
      ensures Handed(rs, done, b, Readers(rs, |done|))
    {
      done := [];
      var more := true;
      assert Readers(rs, 0) == {};
      while more && readers != []
        invariant Serving(bytes, rs, done) && (!more ==> Bytes() == [])
        invariant Handed(rs, done, b, Readers(rs, |done|))
        decreases |rs| - |done|, more
      {
        ReadersGrow(rs, |done|);
        more, done := ServeNext(bytes, rs, done, b, Readers(rs, |done|));
      }
    }

    /** Serves waiting readers in order until one cannot read. Each one served gets its bytes and
        is unblocked; nothing changes for the others. */
    method SendToReaders(ghost b: Before) returns (ghost served: Served)
      requires Valid() && Snapshot(b)
      modifies this, buffer, readers, b.was.Keys
      ensures Valid() && served == Serve(old(Bytes()), Sizes(old(readers)))
      ensures |served.deliveries| <= |old(readers)|
      ensures Bytes() == served.rest && readers == old(readers)[|served.deliveries|..]
      ensures Handed(old(readers), served.deliveries, b, Readers(old(readers), |served.deliveries|))
    {
      ghost var rs, bytes := readers, Bytes();
      assert rs[0..] == rs;
      ghost var done := ServeAll(bytes, rs, b);
      served := Served(done, Bytes());
      ServeEnds(bytes, Sizes(rs), done, Bytes(), Sizes(readers));
    }

    /** The pipe without its history. */
    ghost function View(): State
      requires Valid()
      reads this, buffer, buffer.data
    {
      State(Bytes(), Sizes(readers), [], [], [])
    }

    /** fifo_write on an open pipe: what fits is appended, then readers are served. None is a
        write whose copy leaves the buffer. */
    method FifoWrite(source: seq<Byte>, bytes: int, ghost b: Before) returns (written: Option<int>)
      requires Valid() && bytes <= |source| && bytes <= MAX_INT && Snapshot(b)
      modifies this, buffer, buffer.data, readers, b.was.Keys
      ensures Valid()
      ensures bytes <= 0 ==> written == Some(0)
      ensures bytes > 0 ==>
                (written.None? <==> |old(Bytes())| == BUF_SIZE || |old(Bytes())| + bytes > MAX_INT)
      ensures bytes <= 0 || written.None? ==> Bytes() == old(Bytes()) && readers == old(readers) && Snapshot(b)
      ensures bytes > 0 && written.Some? ==>
                && written.value == Accepts(old(Bytes()), bytes)
                && var served := Serve(old(Bytes()) + source[..written.value], Sizes(old(readers)));
                   var k := |served.deliveries|;
                   && k <= |old(readers)|
                   && Bytes() == served.rest && readers == old(readers)[k..]
                   && Handed(old(readers), served.deliveries, b, Readers(old(readers), k))
    {
      if bytes <= 0 {
        return Some(0);
      }
      var n := buffer.Write(source, bytes);
      if n.None? {
        return None;
      }
      written := Some(n.value);
      ghost var served := SendToReaders(b);
    }

    /** fifo_read on an open pipe: the bytes at once if nobody is ahead and one is buffered;
        otherwise the request joins the queue and the reader is blocked (None). */
    method FifoRead(reader: P.Process, bytes: int) returns (got: Option<seq<Byte>>)
      requires Valid()
      modifies this, buffer, reader
      ensures Valid()
      ensures bytes <= 0 ==> got == Some([]) && Bytes() == old(Bytes()) && readers == old(readers)
      ensures bytes > 0 && old(readers) == [] && old(Bytes()) != [] ==>
                var n := Min(bytes, |old(Bytes())|);
                got == Some(old(Bytes())[..n]) && Bytes() == old(Bytes())[n..] && readers == []
      ensures bytes > 0 && !(old(readers) == [] && old(Bytes()) != []) ==>
                && got == None && Bytes() == old(Bytes())
                && |readers| == |old(readers)| + 1 && readers[..|readers| - 1] == old(readers)
                && readers[|readers| - 1].bytes == bytes && readers[|readers| - 1].reader == reader
      ensures reader.st == if got.None? && !old(reader.st).Delete? then P.Blocked else old(reader.st)
    {
      if bytes <= 0 {
        return Some([]);
      }
      var r := new ReadRequest(bytes, reader);
      var couldRead := false;
      if readers == [] {
        couldRead := TryRead(r);
      }
      if !couldRead {
        readers := readers + [r];
        reader.Block();
        return None;
      }
      got := Some(r.got);
    }

    /** A write, as one step of the pipe of the run theorems: what the requests served received is
        what the step delivers, and the answer is how much the step accepts. */
    method WriteStep(source: seq<Byte>, ghost b: Before) returns (written: int)
      requires Valid() && Enabled(View(), Write(source)) && Snapshot(b)
      modifies this, buffer, buffer.data, readers, b.was.Keys
      ensures Valid()
      ensures var s' := Step(old(View()), Write(source));
              && Bytes() == s'.buffer && Sizes(readers) == s'.waiting
              && 0 < written == |s'.accepted|
              && |s'.delivered| <= |old(readers)|
              && Handed(old(readers), s'.delivered, b, Readers(old(readers), |s'.delivered|))
    {
      var n := FifoWrite(source, |source|, b);
      written := n.value;
      ghost var before, k := old(readers), |old(readers)| - |readers|;
      assert Sizes(before[k..]) == Sizes(before)[k..];
    }

    /** A read likewise. */
    method ReadStep(reader: P.Process, bytes: nat) returns (got: Option<seq<Byte>>)
      requires Valid() && Enabled(View(), Read(bytes))
      modifies this, buffer, reader
      ensures Valid()
      ensures var s' := Step(old(View()), Read(bytes));
              && Bytes() == s'.buffer && Sizes(readers) == s'.waiting
              && s'.delivered == if got.Some? then [got.value] else []
    {
      got := FifoRead(reader, bytes);
      ghost var before := old(readers);
      assert got.None? ==> Sizes(readers) == Sizes(before) + [bytes];
    }
  }

  /** How much of a write of n bytes a pipe holding `buffer` accepts. */
  function Accepts(buffer: seq<Byte>, n: nat): int {
    Min(n, BUF_SIZE - |buffer|)
  }

  // ---------------------------------------------------------------------------
  // Every run of reads and writes on one pipe

  /** `waiting` holds the sizes of the queued requests. The rest is history: the sizes of all
      read calls in order, what the first |delivered| of them received, and every byte that a
      write accepted. */
  datatype State = State(
    buffer: seq<Byte>, waiting: seq<nat>, asked: seq<nat>, delivered: seq<seq<Byte>>, accepted: seq<Byte>)

  datatype Call = Write(data: seq<Byte>) | Read(n: nat)

  const INITIAL := State([], [], [], [], [])

  /** A write that leaves the buffer is excluded: see Fifo.FifoWrite. */
  predicate Enabled(s: State, c: Call) {
    match c
    case Write(data) => data != [] && |s.buffer| < BUF_SIZE && |s.buffer| + |data| <= MAX_INT
    case Read(n) => n > 0
  }

  function Step(s: State, c: Call): State
    requires Enabled(s, c)
  {
    match c
    case Write(data) =>
      var w := Accepts(s.buffer, |data|);
      var r := Serve(s.buffer + data[..w], s.waiting);
      var k := Min(|r.deliveries|, |s.waiting|);
      State(r.rest, s.waiting[k..], s.asked, s.delivered + r.deliveries, s.accepted + data[..w])
    case Read(n) =>
      if s.waiting == [] && s.buffer != [] then
        var m := Min(n, |s.buffer|);
        s.(buffer := s.buffer[m..], asked := s.asked + [n], delivered := s.delivered + [s.buffer[..m]])
      else
        s.(waiting := s.waiting + [n], asked := s.asked + [n])
  }

  ghost predicate Legal(s: State, cs: seq<Call>)
    decreases |cs|
  {
    cs == [] || (Enabled(s, cs[0]) && Legal(Step(s, cs[0]), cs[1..]))
  }

  ghost function After(s: State, cs: seq<Call>): State
    requires Legal(s, cs)
    decreases |cs|
  {
    if cs == [] then s else After(Step(s, cs[0]), cs[1..])
  }

  predicate Answered(delivered: seq<seq<Byte>>, asked: seq<nat>) {
    |delivered| <= |asked| && forall i :: 0 <= i < |delivered| ==> 0 < |delivered[i]| <= asked[i]
  }

  predicate Queued(waiting: seq<nat>, asked: seq<nat>, served: nat) {
    served <= |asked| && waiting == asked[served..] && AllPositive(asked)
  }

  ghost predicate Inv(s: State) {
    && Flatten(s.delivered) + s.buffer == s.accepted
    && |s.buffer| <= BUF_SIZE
    && (s.waiting != [] ==> s.buffer == [])
    && Queued(s.waiting, s.asked, |s.delivered|)
    && Answered(s.delivered, s.asked)
  }

  /** A write accepts the lesser of its size and the room, from the front of its data. A read that
      is answered at once takes the lesser of what it asks for and what is buffered; one that
      waits takes nothing. */
  lemma CallsTakeTheLesser(s: State, c: Call)
    requires Inv(s) && Enabled(s, c)
    ensures var s' := Step(s, c);
            match c
            case Write(data) =>
              var w := |s'.accepted| - |s.accepted|;
              && 0 < w && s'.accepted == s.accepted + data[..w]
              && w <= |data| && w <= BUF_SIZE - |s.buffer| && (w == |data| || w == BUF_SIZE - |s.buffer|)
            case Read(n) =>
              && s'.accepted == s.accepted && s'.asked == s.asked + [n]
              && (s.waiting == [] && s.buffer != [] <==> s'.delivered != s.delivered)
              && (s.waiting == [] && s.buffer != [] ==>
                   var m := |s.buffer| - |s'.buffer|;
                   && 0 < m <= n && (m == n || m == |s.buffer|) && s'.waiting == []
                   && s'.delivered == s.delivered + [s.buffer[..m]] && s'.buffer == s.buffer[m..])
              && (!(s.waiting == [] && s.buffer != []) ==> s'.buffer == s.buffer && s'.waiting == s.waiting + [n])
  {
    if c.Read? && s.waiting == [] && s.buffer != [] {
      assert |Step(s, c).delivered| == |s.delivered| + 1;
    }
  }

  lemma StepKeepsInv(s: State, c: Call)
    requires Inv(s) && Enabled(s, c)
    ensures Inv(Step(s, c))
  {
    match c
    case Write(data) => WriteKeepsInv(s, data);
    case Read(n) => ReadKeepsInv(s, n);
  }

  lemma ReadKeepsInv(s: State, n: nat)
    requires Inv(s) && Enabled(s, Read(n))
    ensures Inv(Step(s, Read(n)))
  {
    var s' := Step(s, Read(n));
    if s.waiting == [] && s.buffer != [] {
      var m := Min(n, |s.buffer|);
      ReadKeepsStream(s.delivered, s.buffer, m);
      assert |s.delivered| == |s.asked|;
      assert Queued([], s'.asked, |s'.delivered|);
    }
  }

  lemma ReadKeepsStream(delivered: seq<seq<Byte>>, buffer: seq<Byte>, m: nat)
    requires m <= |buffer|
    ensures Flatten(delivered + [buffer[..m]]) + buffer[m..] == Flatten(delivered) + buffer
  {
    var now := buffer[..m];
    FlattenAppend(delivered, [now]);
    assert [now][1..] == [] && Flatten([now]) == now + [];
    Associative(Flatten(delivered), now, buffer[m..]);
    assert now + buffer[m..] == buffer;
  }

  lemma WriteKeepsStream(s: State, data: seq<Byte>)
    requires Flatten(s.delivered) + s.buffer == s.accepted && Enabled(s, Write(data))
    ensures var s' := Step(s, Write(data));
            Flatten(s'.delivered) + s'.buffer == s'.accepted
  {
    var w := Accepts(s.buffer, |data|);
    var r := Serve(s.buffer + data[..w], s.waiting);
    ServeConserves(s.buffer + data[..w], s.waiting);
    FlattenAppend(s.delivered, r.deliveries);
    Regroup(Flatten(s.delivered), s.buffer, data[..w], Flatten(r.deliveries), r.rest);
  }

  lemma Regroup(sent: seq<Byte>, buffer: seq<Byte>, more: seq<Byte>, now: seq<Byte>, rest: seq<Byte>)
    requires now + rest == buffer + more
    ensures sent + now + rest == sent + buffer + more
  {
    Associative(sent, now, rest);
    Associative(sent, buffer, more);
  }

  /** The requests served are answered, and the others stay queued. */
  lemma ServedAreAnswered(delivered: seq<seq<Byte>>, waiting: seq<nat>, asked: seq<nat>, more: seq<seq<Byte>>)
    requires Queued(waiting, asked, |delivered|) && Answered(delivered, asked) && Answered(more, waiting)
    ensures Answered(delivered + more, asked) && Queued(waiting[|more|..], asked, |delivered + more|)
  {
    var all := delivered + more;
    forall i | 0 <= i < |all|
      ensures 0 < |all[i]| <= asked[i]
    {
      if i >= |delivered| {
        assert asked[i] == waiting[i - |delivered|];
      }
    }
  }

  lemma WriteKeepsInv(s: State, data: seq<Byte>)
    requires Inv(s) && Enabled(s, Write(data))
    ensures Inv(Step(s, Write(data)))
  {
    var b := s.buffer + data[..Accepts(s.buffer, |data|)];
    var more := Serve(b, s.waiting).deliveries;
    assert AllPositive(s.waiting);
    ServeIsFair(b, s.waiting);
    ServeShrinks(b, s.waiting);
    ServedAreAnswered(s.delivered, s.waiting, s.asked, more);
    WriteKeepsStream(s, data);
  }

  lemma {:induction false} ServeShrinks(buffer: seq<Byte>, sizes: seq<nat>)
    ensures |Serve(buffer, sizes).rest| <= |buffer|
    decreases |sizes|
  {
    if sizes != [] && buffer != [] {
      ServeShrinks(buffer[Min(sizes[0], |buffer|)..], sizes[1..]);
    }
  }

  lemma {:induction false} RunKeepsInv(s: State, cs: seq<Call>)
    requires Inv(s) && Legal(s, cs)
    ensures Inv(After(s, cs))
    decreases |cs|
  {
    if cs != [] {
      StepKeepsInv(s, cs[0]);
      RunKeepsInv(Step(s, cs[0]), cs[1..]);
    }
  }

  /** The pipe is a lossless ordered byte stream: what the read calls received, in the order of
      the calls, followed by what is buffered, is what the writes accepted. Calls are answered
      in order, each with at least one byte, and one waits only on an empty buffer. */
  lemma {:induction false} LosslessStream(cs: seq<Call>)
    requires Legal(INITIAL, cs)
    ensures var s := After(INITIAL, cs);
            && Flatten(s.delivered) + s.buffer == s.accepted
            && |s.delivered| + |s.waiting| == |s.asked|
            && (forall i :: 0 <= i < |s.delivered| ==> 0 < |s.delivered[i]| <= s.asked[i])
            && (s.waiting != [] ==> s.buffer == [])
  {
    RunKeepsInv(INITIAL, cs);
  }
}
