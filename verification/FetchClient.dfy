/** The pipelined fetch client: one connection, one reused buffer, the next fetch on the
    wire before the last response is counted. */
module FetchClient {
  import opened Wire
  import opened FetchWire
  import opened FetchLemmas
  import opened FetchLog

  // ----- walking a response

  /** A window onto the connection's buffer, not a copy of it. */
  datatype View = View(data: array<byte>, len: nat)

  /** The response behind the four bytes of correlation id. */
  function Payload(v: View): Bytes
    requires 4 <= v.len <= v.data.Length
    reads v.data
  {
    v.data[4..v.len]
  }

  /** A varint of which `value` is read, and whose next seven bits weigh `weight`. */
  function Prefixed(value: nat, weight: nat, rest: Option<(nat, int)>): Option<(nat, int)> {
    match rest case None => None case Some((v, j)) => Some((value + weight * v, j))
  }

  function Sevens(low: nat, rest: Option<(nat, int)>): Option<(nat, int)> {
    match rest case None => None case Some((v, j)) => Some((low + 128 * v, j))
  }

  lemma PrefixedStep(value: nat, weight: nat, low: nat, rest: Option<(nat, int)>)
    ensures Prefixed(value, weight, Sevens(low, rest)) == Prefixed(value + low * weight, 128 * weight, rest)
  {
    if rest.Some? {
      var v := rest.value.0;
      assert weight * (low + 128 * v) == low * weight + weight * (128 * v);
      assert weight * (128 * v) == 128 * weight * v;
    }
  }

  method VarintAt(r: Bytes, at: int) returns (res: Option<(int, int)>)
    ensures res == VarAt(r, at)
  {
    hide Prefixed, Pow2, UVarAt;
    var shift, value: nat, i := 0, 0, at;
    PrefixedNothing(UVarAt(r, at));
    while true
      invariant 0 <= shift && UVarAt(r, at) == Prefixed(value, Pow2(shift), UVarAt(r, i))
      decreases |r| - i
    {
      PrefixedEnds(value, Pow2(shift), UVarAt(r, i));
      UVarStep(r, i);
      if !(0 <= i < |r|) { return None; }
      var b := r[i];
      i := i + 1;
      if b < 128 {
        return Some((UnZigzag(value + b % 128 * Pow2(shift)), i));
      }
      PrefixedStep(value, Pow2(shift), b - 128, UVarAt(r, i));
      Pow2Add7(shift);
      value := value + b % 128 * Pow2(shift);
      shift := shift + 7;
    }
  }

  lemma UVarStep(r: Bytes, i: int)
    ensures !(0 <= i < |r|) ==> UVarAt(r, i) == None
    ensures 0 <= i < |r| ==>
        UVarAt(r, i) == if r[i] < 128 then Some((r[i], i + 1)) else Sevens(r[i] - 128, UVarAt(r, i + 1))
  {}

  lemma PrefixedNothing(rest: Option<(nat, int)>)
    ensures Prefixed(0, Pow2(0), rest) == rest
  {}

  lemma PrefixedEnds(value: nat, weight: nat, rest: Option<(nat, int)>)
    ensures Prefixed(value, weight, rest)
        == match rest case None => None case Some((v, j)) => Some((value + v * weight, j))
  {}

  method LocateIn(v: View, start: map<int, int>) returns (w: Walk)
    requires 4 <= v.len <= v.data.Length
    ensures w == Locate(Payload(v), start)
  {
    hide Signed, PartitionAt;
    var r := Payload(v);
    var topics := Signed(r, 10, 4);
    if topics == None { return Raised; }
    var at, offsets, spans, drained := 14, start, [], None;
    var t := 0;
    while t < topics.value
      invariant t == 0 || t <= topics.value
      invariant Topics(r, topics.value - t, Walk(at, spans, drained, offsets)) == Locate(r, start)
    {
      var len := Signed(r, at, 2);
      if len == None { return Raised; }
      var n := Signed(r, at + 2 + len.value, 4);
      if n == None { return Raised; }
      at := at + 2 + len.value + 4;
      ghost var before := Walk(at, spans, drained, offsets);
      var k := 0;
      while k < n.value
        invariant k == 0 || k <= n.value
        invariant Partitions(r, n.value - k, Walk(at, spans, drained, offsets)) == Partitions(r, n.value, before)
      {
        var step := PartitionIn(r, Walk(at, spans, drained, offsets));
        if step == Raised { return Raised; }
        at, offsets, spans, drained := step.at, step.offsets, step.spans, step.drained;
        k := k + 1;
      }
      t := t + 1;
    }
    w := Walk(at, spans, drained, offsets);
  }

  method PartitionIn(r: Bytes, w: Walk) returns (w': Walk)
    requires w.Walk?
    ensures w' == PartitionAt(r, w)
  {
    hide Signed, BatchHeader;
    var at := w.at;
    var partition, err, high := Signed(r, at, 4), Signed(r, at + 4, 2), Signed(r, at + 6, 8);
    if partition == None || err == None || high == None { return Raised; }
    at := at + 30;
    var aborted := Signed(r, at, 4);
    if aborted == None { return Raised; }
    at := at + 4;
    if aborted.value > 0 { at := at + 16 * aborted.value; }
    at := at + 4;
    var size := Signed(r, at, 4);
    if size == None || err.value != 0 { return Raised; }
    at := at + 4;
    var spans, offsets, drained := w.spans, w.offsets, w.drained;
    if size.value > 0 {
      var end := at + size.value;
      var i := at;
      while i + 61 <= end
        invariant Batches(r, i, end, partition.value, w.(spans := spans, offsets := offsets))
            == Batches(r, at, end, partition.value, w)
        decreases end - i
      {
        var header := BatchHeader(r, i, end);
        if header == CutOff { break; }
        if header == Bad || header.stop <= i { return Raised; }
        spans := spans + [Span(i + 61, header.stop, header.declared)];
        offsets := offsets[partition.value := header.next];
        i := header.stop;
      }
      at := end;
    }
    if partition.value !in offsets { return Raised; }
    if offsets[partition.value] >= high.value { drained := partition; }
    w' := Walk(at, spans, drained, offsets);
  }

  method CountIn(v: View, spans: seq<Span>) returns (t: Option<Tally>)
    requires 4 <= v.len <= v.data.Length
    ensures t == Count(Payload(v), spans)
  {
    hide Records, RecordAt;
    var r := Payload(v);
    var msgs: nat, valueBytes: nat := 0, 0;
    for k := 0 to |spans|
      invariant Count(r, spans) == Continue(Tally(msgs, valueBytes), Count(r, spans[k..]))
    {
      assert spans[k..][1..] == spans[k + 1..];
      var counted := CountSpan(r, spans[k]);
      if counted == None || counted.value.msgs != spans[k].declared { return None; }
      msgs := msgs + counted.value.msgs;
      valueBytes := valueBytes + counted.value.valueBytes;
    }
    t := Some(Tally(msgs, valueBytes));
  }

  lemma RecordsEnd(r: Bytes, i: int, stop: int)
    requires i >= stop
    ensures Records(r, i, stop) == Some(Tally(0, 0))
  {}

  lemma RecordsStep(r: Bytes, i: int, stop: int)
    requires i < stop
    ensures RecordAt(r, i) == None || RecordAt(r, i).value.0 <= i ==> Records(r, i, stop) == None
    ensures RecordAt(r, i).Some? && RecordAt(r, i).value.0 > i ==>
      Records(r, i, stop) == Continue(Tally(1, RecordAt(r, i).value.1), Records(r, RecordAt(r, i).value.0, stop))
  {
    hide RecordAt;
  }

  method CountSpan(r: Bytes, span: Span) returns (t: Option<Tally>)
    ensures t == Records(r, span.start, span.stop)
  {
    hide RecordAt, Records;
    var i, counted: nat, bytes: nat := span.start, 0, 0;
    while i < span.stop
      invariant Records(r, span.start, span.stop) == Continue(Tally(counted, bytes), Records(r, i, span.stop))
      decreases span.stop - i
    {
      RecordsStep(r, i, span.stop);
      var rec := RecordIn(r, i);
      if rec == None || rec.value.0 <= i { return None; }
      bytes := bytes + rec.value.1;
      counted := counted + 1;
      i := rec.value.0;
    }
    RecordsEnd(r, i, span.stop);
    t := Some(Tally(counted, bytes));
  }

  function Continue(done: Tally, rest: Option<Tally>): Option<Tally> {
    match rest case None => None case Some(t) => Some(done.Plus(t))
  }

  method RecordIn(r: Bytes, at: int) returns (res: Option<(int, nat)>)
    ensures res == RecordAt(r, at)
  {
    var length := VarintAt(r, at);
    if length == None { return None; }
    var after := length.value.1 + length.value.0;
    var stamp := VarintAt(r, length.value.1 + 1);
    if stamp == None { return None; }
    var delta := VarintAt(r, stamp.value.1);
    if delta == None { return None; }
    var k := VarintAt(r, delta.value.1);
    if k == None { return None; }
    var v := VarintAt(r, if k.value.0 > 0 then k.value.1 + k.value.0 else k.value.1);
    if v == None { return None; }
    res := Some((after, if v.value.0 > 0 then v.value.0 else 0));
  }

  // ----- the connection

  datatype Request = Request(offsets: map<int, int>, order: seq<int>)

  class Broker {
    /** What the socket has still to deliver. */
    var stream: Bytes
    var buf: array<byte>
    var correlation: nat
    ghost var asked: seq<Request>

    constructor (incoming: Bytes)
      ensures stream == incoming && correlation == 0 && asked == [] && fresh(buf) && buf.Length == 1_048_576
    {
      stream, correlation, asked := incoming, 0, [];
      buf := new byte[0x10_0000](_ => 0);
    }

    /** Sends a fetch. The buffer is not touched. */
    method Fetch(offsets: map<int, int>, order: seq<int>)
      modifies `correlation, `asked
      ensures correlation == old(correlation) + 1 && asked == old(asked) + [Request(offsets, order)]
    {
      correlation := correlation + 1;
      asked := asked + [Request(offsets, order)];
    }

    /** socket.recv_into: any number of the bytes asked for, zero when the peer closed. */
    method RecvInto(data: array<byte>, at: nat, max: nat) returns (got: nat)
      requires 0 < max && at + max <= data.Length
      modifies `stream, data
      ensures got <= max && got <= |old(stream)| && (got == 0 <==> old(stream) == [])
      ensures data[..at] == old(data[..at]) && data[at..at + got] == old(stream)[..got] && stream == old(stream)[got..]
    {
      if stream == [] { return 0; }
      got :| 0 < got <= max && got <= |stream|;
      for k := 0 to got
        invariant data[..at] == old(data[..at]) && data[at..at + k] == stream[..k]
        modifies data
      {
        data[at + k] := stream[k];
      }
      stream := stream[got..];
    }

    /** The next n bytes, in the reused buffer; None when the connection closes first. */
    method Exactly(n: nat) returns (v: Option<View>)
      modifies this, buf
      ensures v.Some? <==> n <= |old(stream)|
      ensures v.Some? ==>
          v.value == View(buf, n) && n <= buf.Length && buf[..n] == old(stream)[..n] && stream == old(stream)[n..]
      ensures if n <= old(buf.Length) then buf == old(buf) else fresh(buf) && buf.Length == n
      ensures correlation == old(correlation) && asked == old(asked)
    {
      if n > buf.Length { buf := new byte[n](_ => 0); }
      var data := buf;
      ghost var all := stream;
      var at := 0;
      while at < n
        invariant at <= n <= data.Length && at <= |all| && stream == all[at..] && data[..at] == all[..at]
        modifies `stream, data
      {
        var got := RecvInto(data, at, n - at);
        if got == 0 { return None; }
        assert data[..at + got] == data[..at] + data[at..at + got];
        at := at + got;
      }
      v := Some(View(buf, n));
    }

    /** One response; None when the connection closes or the correlation id is another's.
        `payload` and `rest` are what the connection delivers, if it is so. */
    method Recv(ghost payload: Bytes, ghost rest: Bytes) returns (v: Option<View>)
      modifies this, buf
      ensures buf == old(buf) || fresh(buf)
      ensures correlation == old(correlation) && asked == old(asked)
      ensures v.Some? ==> v.value.data == buf && 4 <= v.value.len <= buf.Length && |stream| < |old(stream)|
      ensures old(stream) == Frame(correlation, payload) + rest && FitsFrame(correlation, payload) ==>
        v.Some? && Payload(v.value) == payload && stream == rest
    {
      ghost var expected := stream == Frame(correlation, payload) + rest && FitsFrame(correlation, payload);
      if expected {
        FrameHolds(stream, correlation, payload, rest);
        FrameHead(correlation, payload);
      }
      var head := Exactly(4);
      if head == None { return None; }
      var size := Signed(buf[..4], 0, 4);
      if size == None || size.value < 4 { return None; }
      ghost var body := stream;
      v := Exactly(size.value);
      if v == None { return None; }
      assert expected ==> size.value == 4 + |payload| && buf[..size.value] == SBE(4, correlation) + payload;
      var got := Signed(buf[..size.value], 0, 4);
      if got != Some(correlation) { return None; }
      assert expected ==> buf[..size.value] == body[..size.value];
    }
  }

  predicate FitsFrame(correlation: nat, payload: Bytes) {
    InRange(4, correlation) && InRange(4, 4 + |payload|)
  }

  function Frame(correlation: nat, payload: Bytes): Bytes {
    if FitsFrame(correlation, payload) then SBE(4, 4 + |payload|) + (SBE(4, correlation) + payload) else []
  }

  lemma FrameHolds(stream: Bytes, correlation: nat, payload: Bytes, rest: Bytes)
    requires FitsFrame(correlation, payload) && stream == Frame(correlation, payload) + rest
    ensures |stream| >= 8 + |payload| && Signed(stream[..4], 0, 4) == Some(4 + |payload|)
    ensures stream[4..][..4 + |payload|] == SBE(4, correlation) + payload && stream[4..][4 + |payload|..] == rest
  {
    hide SBE;
    var size := SBE(4, 4 + |payload|);
    assert stream[..4] == size;
    WholeHolds(size);
    SignedHolds(size, 0, 4, 4 + |payload|);
  }

  lemma FrameHead(correlation: nat, payload: Bytes)
    requires FitsFrame(correlation, payload)
    ensures Signed(SBE(4, correlation) + payload, 0, 4) == Some(correlation)
  {
    hide SBE;
    var e := SBE(4, correlation);
    WholeHolds(e + payload);
    HoldsSplit(e + payload, 0, e, payload);
    SignedHolds(e + payload, 0, 4, correlation);
  }

  // ----- one consumer

  /** order[1:] + order[:1] */
  function Rotate(order: seq<int>): seq<int> {
    if order == [] then [] else order[1..] + order[..1]
  }

  function RotateBy(order: seq<int>, k: nat): seq<int> {
    if k == 0 then order else Rotate(RotateBy(order, k - 1))
  }

  /** The frames of a connection's answers, numbered from `correlation`. */
  ghost function Frames(correlation: nat, answers: seq<Response>): Bytes
    requires forall a | a in answers :: WellFormed(a)
    decreases |answers|
  {
    if answers == [] then [] else Frame(correlation, ResponseBytes(answers[0])) + Frames(correlation + 1, answers[1..])
  }

  ghost predicate Fits(correlation: nat, answers: seq<Response>)
    requires forall a | a in answers :: WellFormed(a)
    decreases |answers|
  {
    answers == [] || (FitsFrame(correlation, ResponseBytes(answers[0])) && Fits(correlation + 1, answers[1..]))
  }

  ghost function OffsetsAfter(offsets: map<int, int>, a: Response): map<int, int>
    requires WellFormed(a)
  {
    var w := Locate(ResponseBytes(a), offsets);
    if w.Walk? then w.offsets else offsets
  }

  /** Each answer serves the offsets that the answers before it left. */
  ghost predicate Served(log: Log, offsets: map<int, int>, want: seq<int>, answers: seq<Response>)
    decreases |answers|
  {
    (forall a | a in answers :: WellFormed(a)) &&
    (answers == [] ||
     (&& Answers(log, offsets, answers[0])
      && (forall k | 0 <= k < |answers[0].parts| :: answers[0].parts[k].partition in want)
      && Served(log, OffsetsAfter(offsets, answers[0]), want, answers[1..])))
  }

  /** The first request repeats its order once; each later one rotates it a step further. */
  ghost predicate Asks(asked: seq<Request>, offsets: map<int, int>, want: seq<int>, answers: seq<Response>)
    requires forall a | a in answers :: WellFormed(a)
  {
    |asked| <= |answers| + 1 &&
    forall k | 0 <= k < |asked| ::
      asked[k] == Request(OffsetsAt(offsets, answers, k), RotateBy(want, if k == 0 then 0 else k - 1))
  }

  ghost function OffsetsAt(offsets: map<int, int>, answers: seq<Response>, k: nat): map<int, int>
    requires k <= |answers| && forall a | a in answers :: WellFormed(a)
  {
    if k == 0 then offsets else OffsetsAfter(OffsetsAt(offsets, answers, k - 1), answers[k - 1])
  }

  /** Answer `j` shows a partition read to its end, which the window does not survive. */
  ghost predicate Drains(earliest: map<int, int>, answers: seq<Response>, j: nat)
    requires j < |answers| && forall a | a in answers :: WellFormed(a)
  {
    var w := Locate(ResponseBytes(answers[j]), OffsetsAt(earliest, answers, j));
    w.Walk? && w.drained != None
  }

  /** Round `k` is the first whose clock is over, the answers last until then, and none of those
      counted drains a partition. Answer 0 is the one that warms the connection up. */
  ghost predicate EndsAt(over: nat -> bool, earliest: map<int, int>, answers: seq<Response>, k: nat)
    requires forall a | a in answers :: WellFormed(a)
  {
    && over(k) && k + 1 < |answers|
    && Underway(over, earliest, answers, k) && !Drains(earliest, answers, k + 1)
  }

  /** The window has lasted `round` rounds. */
  ghost predicate Underway(over: nat -> bool, earliest: map<int, int>, answers: seq<Response>, round: nat)
    requires round < |answers| && forall a | a in answers :: WellFormed(a)
  {
    (forall j: nat | j < round :: !over(j)) && (forall j: nat | 1 <= j <= round :: !Drains(earliest, answers, j))
  }

  /** A window that fails in a round ends in none. */
  lemma EndsNever(over: nat -> bool, earliest: map<int, int>, answers: seq<Response>, round: nat)
    requires round < |answers| && (forall a | a in answers :: WellFormed(a)) && Underway(over, earliest, answers, round)
    requires round + 1 == |answers| || Drains(earliest, answers, round + 1)
    ensures forall k :: !EndsAt(over, earliest, answers, k)
  {
    hide Drains, WellFormed;
  }

  datatype Outcome = Err | Ok(msgs: nat, valueBytes: nat)

  /** One consumer's run. Whatever the responses and wherever they are cut, what it
      reports is exactly the records between the offsets at the start of the window and
      those at its end, and every request names the offsets the responses before it left. */
  method Consumer(broker: Broker, want: seq<int>, earliest: map<int, int>, over: nat -> bool,
                  ghost log: Log, ghost answers: seq<Response>)
    returns (r: Outcome, ghost warm: map<int, int>, ghost end: map<int, int>)
    requires (forall a | a in answers :: WellFormed(a)) && Between(log, earliest, earliest, want)
        && Served(log, earliest, want, answers)
    requires Fits(broker.correlation + 1, answers) && broker.stream == Frames(broker.correlation + 1, answers)
    requires broker.asked == []
    modifies broker, broker.buf
    ensures r.Ok? <==> exists k :: EndsAt(over, earliest, answers, k)
    ensures r.Ok? ==> 2 <= |broker.asked| <= |answers|
    ensures r.Ok? ==> warm == OffsetsAt(earliest, answers, 1) && end == OffsetsAt(earliest, answers, |broker.asked|)
    ensures r.Ok? ==> Between(log, warm, end, want) && Tally(r.msgs, r.valueBytes) == Read(log, warm, end, want)
    ensures Asks(broker.asked, earliest, want, answers)
  {
    hide Read, Between, Count, ResponseBytes, Payload, WellFormed, Frames, Fits, Served, Asks, OffsetsAfter, Locate;
    warm, end := earliest, earliest;
    var offsets, order := earliest, want;
    AsksFirst(earliest, want, answers);
    broker.Fetch(offsets, order);
    assert broker.asked == [Request(earliest, want)];
    var v, w := Receive(broker, offsets, log, earliest, want, answers);
    if v == None { return Err, warm, end; }
    offsets := w.offsets;
    warm, end := offsets, offsets;
    ReadNothing(log, earliest, warm, want);
    AsksNext(broker.asked, earliest, want, answers);
    assert OffsetsAt(earliest, answers, 0) == earliest && OffsetsAt(earliest, answers, 1) == offsets;
    assert RotateBy(want, 0) == order;
    broker.Fetch(offsets, order);
    assert Asks(broker.asked, earliest, want, answers);
    assert Delivers(broker, log, offsets, want, answers[1..]);
    assert Counted(log, want, earliest, answers, offsets, Tally(0, 0));
    r, end := Window(broker, want, earliest, offsets, order, over, log, answers);
  }

  /** One request is on the wire, the answers before it are behind, and `total` is what
      the window has counted. */
  ghost predicate InWindow(broker: Broker, log: Log, want: seq<int>, earliest: map<int, int>, answers: seq<Response>,
                           done: nat, offsets: map<int, int>, order: seq<int>, total: Tally)
    requires forall a | a in answers :: WellFormed(a)
    reads broker
  {
    && 1 <= done <= |answers| && |broker.asked| == done + 1 && Asks(broker.asked, earliest, want, answers)
    && offsets == OffsetsAt(earliest, answers, done) && order == RotateBy(want, done - 1)
    && Delivers(broker, log, offsets, want, answers[done..])
    && Counted(log, want, earliest, answers, offsets, total)
  }

  /** The total is the records between the window's first offsets and these. */
  ghost predicate Counted(log: Log, want: seq<int>, earliest: map<int, int>, answers: seq<Response>,
                          offsets: map<int, int>, total: Tally)
    requires forall a | a in answers :: WellFormed(a)
  {
    answers != [] &&
    var start := OffsetsAt(earliest, answers, 1);
    Between(log, start, offsets, want) && total == Read(log, start, offsets, want)
  }

  /** The measured window. */
  method Window(broker: Broker, ghost want: seq<int>, ghost earliest: map<int, int>, start: map<int, int>,
                first: seq<int>, over: nat -> bool, ghost log: Log, ghost answers: seq<Response>)
    returns (r: Outcome, ghost end: map<int, int>)
    requires forall a | a in answers :: WellFormed(a)
    requires InWindow(broker, log, want, earliest, answers, 1, start, first, Tally(0, 0))
    modifies broker, broker.buf
    ensures r.Ok? <==> exists k :: EndsAt(over, earliest, answers, k)
    ensures r.Ok? ==> Counted(log, want, earliest, answers, end, Tally(r.msgs, r.valueBytes))
    ensures r.Ok? ==> 2 <= |broker.asked| <= |answers| && end == OffsetsAt(earliest, answers, |broker.asked|)
    ensures Asks(broker.asked, earliest, want, answers)
  {
    hide Counted, WellFormed, Served, Asks, Delivers, RotateBy, OffsetsAt, Drains;
    ghost var done := 1;
    var offsets, order := start, first;
    var msgs: nat, valueBytes: nat, round: nat := 0, 0, 0;
    while true
      invariant broker.buf == old(broker.buf) || fresh(broker.buf)
      invariant InWindow(broker, log, want, earliest, answers, done, offsets, order, Tally(msgs, valueBytes))
      invariant done == round + 1
      invariant round < |answers| && Underway(over, earliest, answers, round)
      decreases |broker.stream|
    {
      var isOver := over(round);
      var t;
      t, offsets, order := Turn(broker, offsets, order, isOver, log, want, earliest, answers, done,
        Tally(msgs, valueBytes));
      end := offsets;
      if t == None {
        EndsNever(over, earliest, answers, round);
        return Err, end;
      }
      msgs, valueBytes := msgs + t.value.msgs, valueBytes + t.value.valueBytes;
      if isOver {
        assert EndsAt(over, earliest, answers, round);
        return Ok(msgs, valueBytes), end;
      }
      done := done + 1;
      round := round + 1;
    }
  }

  /** One turn of the window: the next fetch goes out before the response in hand is
      counted, and the count still reads that response. */
  method Turn(broker: Broker, offsets: map<int, int>, order: seq<int>, isOver: bool, ghost log: Log,
              ghost want: seq<int>, ghost earliest: map<int, int>, ghost answers: seq<Response>, ghost done: nat,
              ghost total: Tally)
    returns (t: Option<Tally>, offsets': map<int, int>, order': seq<int>)
    requires forall a | a in answers :: WellFormed(a)
    requires InWindow(broker, log, want, earliest, answers, done, offsets, order, total)
    modifies broker, broker.buf
    ensures broker.buf == old(broker.buf) || fresh(broker.buf)
    ensures Asks(broker.asked, earliest, want, answers)
    ensures t.Some? <==> done < |answers| && !Drains(earliest, answers, done)
    ensures t.Some? ==> |broker.stream| < |old(broker.stream)|
    ensures t.Some? ==> done < |answers| && Counted(log, want, earliest, answers, offsets', total.Plus(t.value))
    ensures t.Some? ==>
              && offsets' == OffsetsAt(earliest, answers, done + 1)
              && |broker.asked| == if isOver then done + 1 else done + 2
    ensures t.Some? && !isOver ==>
        InWindow(broker, log, want, earliest, answers, done + 1, offsets', order', total.Plus(t.value))
  {
    hide Read, Between, Count, ResponseBytes, Payload, WellFormed, Frames, Fits, Served, Asks, OffsetsAfter, Locate;
    ghost var start, rest := OffsetsAt(earliest, answers, 1), answers[done..];
    t, offsets', order' := None, offsets, order;
    var v, w := Receive(broker, offsets, log, start, want, rest);
    if v == None { return; }
    assert rest[1..] == answers[done + 1..] && rest[0] == answers[done];
    order' := Rotate(order);
    offsets' := w.offsets;
    assert offsets' == OffsetsAt(earliest, answers, done + 1);
    if w.drained != None { return; }
    if !isOver {
      AsksNext(broker.asked, earliest, want, answers);
      broker.Fetch(offsets', order');
    }
    assert Payload(v.value) == ResponseBytes(rest[0]);
    t := CountIn(v.value, w.spans);
  }

  /** The connection will deliver the answers, in order, to requests that are numbered on
      from the last one sent. */
  ghost predicate Delivers(broker: Broker, log: Log, offsets: map<int, int>, want: seq<int>, answers: seq<Response>)
    reads broker`stream, broker`correlation
  {
    && Served(log, offsets, want, answers) && Fits(broker.correlation, answers)
    && broker.stream == Frames(broker.correlation, answers)
  }

  /** recv and locate: the view still holds the response the walk describes. */
  method Receive(broker: Broker, offsets: map<int, int>, ghost log: Log, ghost from: map<int, int>,
                 ghost want: seq<int>, ghost answers: seq<Response>)
    returns (v: Option<View>, w: Walk)
    requires Delivers(broker, log, offsets, want, answers) && Between(log, from, offsets, want)
    modifies broker, broker.buf
    ensures broker.buf == old(broker.buf) || fresh(broker.buf)
    ensures broker.correlation == old(broker.correlation) && broker.asked == old(broker.asked)
    ensures v.Some? <==> answers != []
    ensures v.Some? ==> w == Locate(ResponseBytes(answers[0]), offsets)
    ensures v.Some? ==>
      && answers != [] && |broker.stream| < |old(broker.stream)| && w.Walk?
      && v.value.data == broker.buf && 4 <= v.value.len <= broker.buf.Length
      && var payload := ResponseBytes(answers[0]);
         && Payload(v.value) == payload && w.offsets == OffsetsAfter(offsets, answers[0])
         && Between(log, from, w.offsets, want) && Count(payload, w.spans).Some?
         && Read(log, from, w.offsets, want) == Read(log, from, offsets, want).Plus(Count(payload, w.spans).value)
    ensures v.Some? ==>
      Served(log, w.offsets, want, answers[1..]) && Fits(broker.correlation + 1, answers[1..])
        && broker.stream == Frames(broker.correlation + 1, answers[1..])
  {
    hide Read, Between, Locate, Count, Answers, Frame, FitsFrame, ResponseBytes, Payload, WellFormed, Frames, Fits;
    hide Served, OffsetsAfter;
    ServedHead(log, offsets, want, answers, broker.correlation, broker.stream);
    v := broker.Recv(Next(answers), Frames(broker.correlation + 1, Rest(answers)));
    if v == None { return None, Raised; }
    w := LocateIn(v.value, offsets);
    StepConserves(log, from, offsets, answers[0], want);
    ServedNext(log, offsets, want, answers, broker.correlation);
  }

  ghost function Next(answers: seq<Response>): Bytes {
    if answers == [] || !WellFormed(answers[0]) then [] else ResponseBytes(answers[0])
  }

  ghost function Rest(answers: seq<Response>): seq<Response> {
    if answers == [] then [] else answers[1..]
  }

  lemma AsksFirst(earliest: map<int, int>, want: seq<int>, answers: seq<Response>)
    requires forall a | a in answers :: WellFormed(a)
    ensures Asks([], earliest, want, answers)
    ensures Asks([Request(earliest, want)], earliest, want, answers)
  {}

  lemma AsksNext(asked: seq<Request>, earliest: map<int, int>, want: seq<int>, answers: seq<Response>)
    requires forall a | a in answers :: WellFormed(a)
    requires 1 <= |asked| <= |answers| && Asks(asked, earliest, want, answers)
    ensures var next := Request(OffsetsAt(earliest, answers, |asked|), RotateBy(want, |asked| - 1));
            Asks(asked + [next], earliest, want, answers)
  {
    hide WellFormed, OffsetsAt, RotateBy;
  }

  /** The frame that comes next is the answer to the request that is out. */
  lemma ServedHead(log: Log, offsets: map<int, int>, want: seq<int>, answers: seq<Response>, correlation: nat,
                   stream: Bytes)
    requires Served(log, offsets, want, answers) && Fits(correlation, answers) && stream == Frames(correlation, answers)
    ensures stream == [] <==> answers == []
    ensures forall a | a in Rest(answers) :: WellFormed(a)
    ensures answers != [] ==>
        WellFormed(answers[0]) && Next(answers) == ResponseBytes(answers[0]) && Rest(answers) == answers[1..]
    ensures answers != [] ==>
      && stream == Frame(correlation, ResponseBytes(answers[0])) + Frames(correlation + 1, answers[1..])
      && FitsFrame(correlation, ResponseBytes(answers[0])) && Answers(log, offsets, answers[0])
      && forall k | 0 <= k < |answers[0].parts| :: answers[0].parts[k].partition in want
  {
    hide ResponseBytes, Answers, WellFormed;
    if answers != [] { assert |Frame(correlation, ResponseBytes(answers[0]))| >= 4; }
  }

  lemma ServedNext(log: Log, offsets: map<int, int>, want: seq<int>, answers: seq<Response>, correlation: nat)
    requires answers != [] && Served(log, offsets, want, answers) && Fits(correlation, answers)
    requires Locate(ResponseBytes(answers[0]), offsets).Walk?
    ensures OffsetsAfter(offsets, answers[0]) == Locate(ResponseBytes(answers[0]), offsets).offsets
    ensures Served(log, Locate(ResponseBytes(answers[0]), offsets).offsets, want, answers[1..])
    ensures Fits(correlation + 1, answers[1..])
  {
    hide ResponseBytes, Answers, WellFormed, Locate, FitsFrame;
  }

  lemma ReadNothing(log: Log, from: map<int, int>, to: map<int, int>, want: seq<int>)
    requires Between(log, from, to, want)
    ensures Between(log, to, to, want) && Read(log, to, to, want) == Tally(0, 0)
    decreases |want|
  {
    assert forall k | 0 <= k < |want| :: Within(log, from, to, want[k]);
    if want != [] {
      assert log[want[0]][to[want[0]]..to[want[0]]] == [];
      NoTally();
      ReadNothing(log, from, to, Tail(want));
    }
  }
}
