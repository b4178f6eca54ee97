/** Fetch v11 responses as the embedded client walks them: `locate` over batch headers,
    `count` over records. */
module FetchWire {
  import opened Wire

  // ----- big-endian fields at a position

  function FromBE(bs: Bytes): nat {
    if bs == [] then 0 else 256 * FromBE(bs[..|bs| - 1]) + bs[|bs| - 1]
  }

  function BE(w: nat, v: nat): (bs: Bytes)
    ensures |bs| == w
  {
    if w == 0 then [] else BE(w - 1, v / 256) + [v % 256]
  }

  /** struct.unpack_from: None is struct.error. */
  function Unsigned(r: Bytes, at: int, w: nat): Option<nat> {
    if 0 <= at && at + w <= |r| then Some(FromBE(r[at..at + w])) else None
  }

  function Signed(r: Bytes, at: int, w: nat): Option<int> {
    match Unsigned(r, at, w)
    case None => None
    case Some(u) => Some(if 2 * u >= Pow256(w) then u - Pow256(w) else u)
  }

  predicate InRange(w: nat, v: int) { 0 <= 2 * v + Pow256(w) && 2 * v < Pow256(w) }

  function SBE(w: nat, v: int): (bs: Bytes)
    requires InRange(w, v)
    ensures |bs| == w
  {
    BE(w, if v < 0 then v + Pow256(w) else v)
  }

  // ----- locate

  datatype Span = Span(start: int, stop: int, declared: int)

  /** A walk in progress: the position, and what it has found. */
  datatype Walk =
    | Raised
    | Walk(at: int, spans: seq<Span>, drained: Option<int>, offsets: map<int, int>)

  /** One batch header at `i`: where the batch ends, what it declares, the offset after
      it. None is an error, Some(None) a batch that `end` cuts off. */
  datatype Header = Bad | CutOff | Header(stop: int, declared: int, next: int)

  function BatchHeader(r: Bytes, i: int, end: int): Header {
    match (Signed(r, i, 8), Signed(r, i + 8, 4))
    case (Some(base), Some(len)) =>
      var stop := i + 12 + len;
      if stop > end then CutOff
      else
        (match (Unsigned(r, i + 16, 1), Unsigned(r, i + 21, 2), Signed(r, i + 23, 4), Signed(r, i + 57, 4))
         case (Some(magic), Some(attributes), Some(delta), Some(declared)) =>
           if magic != 2 || attributes % 8 != 0 then Bad else Header(stop, declared, base + delta + 1)
         case _ => Bad)
    case _ => Bad
  }

  /** The batches of one record set. A batch that does not end past its start, on which
      the source would never finish, is an error here. */
  function Batches(r: Bytes, i: int, end: int, partition: int, w: Walk): Walk
    requires w.Walk?
    decreases end - i
  {
    if i + 61 > end then w
    else
      match BatchHeader(r, i, end)
      case Bad => Raised
      case CutOff => w
      case Header(stop, declared, next) =>
        if stop <= i then Raised
        else
          Batches(r, stop, end, partition,
                  w.(spans := w.spans + [Span(i + 61, stop, declared)], offsets := w.offsets[partition := next]))
  }

  function PartitionAt(r: Bytes, w: Walk): Walk
    requires w.Walk?
  {
    var at := w.at;
    match (Signed(r, at, 4), Signed(r, at + 4, 2), Signed(r, at + 6, 8), Signed(r, at + 30, 4))
    case (Some(partition), Some(err), Some(high), Some(aborted)) =>
      var at' := at + 34 + (if aborted > 0 then 16 * aborted else 0) + 4;
      (match Signed(r, at', 4)
       case None => Raised
       case Some(size) =>
         if err != 0 then Raised
         else
           var start := at' + 4;
           var end := if size > 0 then start + size else start;
           var w' := Batches(r, start, end, partition, w);
           if w' == Raised || partition !in w'.offsets then Raised
           else w'.(at := end, drained := if w'.offsets[partition] >= high then Some(partition) else w'.drained))
    case _ => Raised
  }

  function Partitions(r: Bytes, n: int, w: Walk): Walk
    requires w.Walk?
  {
    if n <= 0 then w
    else
      var w' := PartitionAt(r, w);
      if w' == Raised then Raised else Partitions(r, n - 1, w')
  }

  function Topics(r: Bytes, n: int, w: Walk): Walk
    requires w.Walk?
  {
    if n <= 0 then w
    else
      match Signed(r, w.at, 2)
      case None => Raised
      case Some(len) =>
        match Signed(r, w.at + 2 + len, 4)
        case None => Raised
        case Some(parts) =>
          var w' := Partitions(r, parts, w.(at := w.at + 2 + len + 4));
          if w' == Raised then Raised else Topics(r, n - 1, w')
  }

  function Locate(r: Bytes, offsets: map<int, int>): Walk {
    match Signed(r, 10, 4)
    case None => Raised
    case Some(topics) => Topics(r, topics, Walk(14, [], None, offsets))
  }

  // ----- count

  /** The unsigned varint at `i` and the position after it; None is IndexError. */
  function UVarAt(r: Bytes, i: int): Option<(nat, int)>
    decreases |r| - i
  {
    if !(0 <= i < |r|) then None
    else if r[i] < 128 then Some((r[i], i + 1))
    else
      match UVarAt(r, i + 1)
      case None => None
      case Some((v, j)) => Some((r[i] - 128 + 128 * v, j))
  }

  function UnZigzag(u: nat): int { if u % 2 == 0 then u / 2 else -(u / 2) - 1 }

  function VarAt(r: Bytes, i: int): Option<(int, int)> {
    match UVarAt(r, i)
    case None => None
    case Some((u, j)) => Some((UnZigzag(u), j))
  }

  /** One record at `i`: the position after it and its value's length. */
  function RecordAt(r: Bytes, i: int): Option<(int, nat)> {
    match VarAt(r, i)
    case None => None
    case Some((length, body)) =>
      match VarAt(r, body + 1)
      case None => None
      case Some((_, i1)) =>
        match VarAt(r, i1)
        case None => None
        case Some((_, i2)) =>
          match VarAt(r, i2)
          case None => None
          case Some((k, i3)) =>
            match VarAt(r, if k > 0 then i3 + k else i3)
            case None => None
            case Some((v, _)) => Some((body + length, if v > 0 then v else 0))
  }

  datatype Tally = Tally(msgs: nat, valueBytes: nat) {
    function Plus(t: Tally): Tally { Tally(msgs + t.msgs, valueBytes + t.valueBytes) }
  }

  /** The records from `i` to `stop`. A record that does not end past its start, on which
      the source would never finish, is an error here. */
  function Records(r: Bytes, i: int, stop: int): Option<Tally>
    decreases stop - i
  {
    if i >= stop then Some(Tally(0, 0))
    else
      match RecordAt(r, i)
      case None => None
      case Some((after, v)) =>
        if after <= i then None
        else
          match Records(r, after, stop)
          case None => None
          case Some(t) => Some(Tally(1, v).Plus(t))
  }

  /** None where a span's records disagree with what its header declares. */
  function Count(r: Bytes, spans: seq<Span>): Option<Tally> {
    if spans == [] then Some(Tally(0, 0))
    else
      match Records(r, spans[0].start, spans[0].stop)
      case None => None
      case Some(t) =>
        if t.msgs != spans[0].declared then None
        else
          match Count(r, spans[1..])
          case None => None
          case Some(more) => Some(t.Plus(more))
  }

  // ----- what a broker sends

  datatype Record = Record(attributes: byte, timestamp: int, delta: int, key: Option<Bytes>, value: Option<Bytes>,
                           headers: Bytes)

  function Zigzag(n: int): nat { if n >= 0 then 2 * n else -2 * n - 1 }
  function Var(n: int): Bytes { Varint(Zigzag(n)) }
  function Field(b: Option<Bytes>): Bytes { if b.Some? then Var(|b.value|) + b.value else Var(-1) }
  function ValueLength(rec: Record): nat { if rec.value.Some? then |rec.value.value| else 0 }

  function RecordBody(rec: Record): Bytes {
    [rec.attributes] + (Var(rec.timestamp) + (Var(rec.delta) + (Field(rec.key) + (Field(rec.value) + rec.headers))))
  }

  function RecordBytes(rec: Record): Bytes { Var(|RecordBody(rec)|) + RecordBody(rec) }

  /** A batch of consecutive records. The fields the client does not read are arbitrary. */
  datatype Batch = Batch(base: nat, records: seq<Record>, attributes: nat, epoch: Bytes, crc: Bytes, producer: Bytes)

  function BatchBody(b: Batch): Bytes { Each(RecordBytes, b.records) }

  predicate WellFormedBatch(b: Batch) {
    && |b.records| > 0 && |b.epoch| == 4 && |b.crc| == 4 && |b.producer| == 30
    && b.attributes < 0x1_0000 && b.attributes % 8 == 0
    && InRange(8, b.base) && InRange(4, 49 + |BatchBody(b)|) && InRange(4, |b.records|)
  }

  function BatchBytes(b: Batch): Bytes
    requires WellFormedBatch(b)
  {
    SBE(8, b.base) + (SBE(4, 49 + |BatchBody(b)|) + (b.epoch + ([2] + (b.crc + (BE(2, b.attributes)
    + (SBE(4, |b.records| - 1) + (b.producer + (SBE(4, |b.records|) + BatchBody(b)))))))))
  }

  function RecordSet(batches: seq<Batch>): Bytes
    requires forall b | b in batches :: WellFormedBatch(b)
  {
    if batches == [] then [] else BatchBytes(batches[0]) + RecordSet(batches[1..])
  }

  /** One partition's share of a response: the record set, cut off after `cut` bytes. Both the list
      of aborted transactions and the record set may be null, which is written as the count -1. */
  datatype Part = Part(
    partition: int, high: int, opaque16: Bytes, aborted: Option<Bytes>, replica: Bytes, batches: seq<Batch>,
    cut: Option<nat>)
  {
    function Aborted(): Bytes { if aborted.Some? then aborted.value else [] }

    function AbortedCount(): int { if aborted.Some? then |aborted.value| / 16 else -1 }

    function Cut(): nat { if cut.Some? then cut.value else 0 }

    function Size(): int { if cut.Some? then cut.value else -1 }
  }

  predicate WellFormedPart(p: Part) {
    && (forall b | b in p.batches :: WellFormedBatch(b))
    && p.Cut() <= |RecordSet(p.batches)| && InRange(4, p.Size())
    && InRange(4, p.partition) && InRange(8, p.high)
    && |p.opaque16| == 16 && |p.Aborted()| % 16 == 0 && InRange(4, p.AbortedCount()) && |p.replica| == 4
  }

  function PartBytes(p: Part): Bytes
    requires WellFormedPart(p)
  {
    SBE(4, p.partition) + (SBE(2, 0) + (SBE(8, p.high) + (p.opaque16 + (SBE(4, p.AbortedCount()) + (p.Aborted()
    + (p.replica + (SBE(4, p.Size()) + RecordSet(p.batches)[..p.Cut()])))))))
  }

  function PartsBytes(ps: seq<Part>): Bytes
    requires forall p | p in ps :: WellFormedPart(p)
  {
    if ps == [] then [] else PartBytes(ps[0]) + PartsBytes(ps[1..])
  }

  datatype Response = Response(head: Bytes, topic: Bytes, parts: seq<Part>)

  predicate WellFormed(resp: Response) {
    && |resp.head| == 10 && InRange(2, |resp.topic|) && InRange(4, |resp.parts|)
    && forall p | p in resp.parts :: WellFormedPart(p)
  }

  /** The response behind its correlation id, for the one topic the client asks for. */
  function ResponseBytes(resp: Response): Bytes
    requires WellFormed(resp)
  {
    resp.head + (SBE(4, 1) + (SBE(2, |resp.topic|) + (resp.topic + (SBE(4, |resp.parts|) + PartsBytes(resp.parts)))))
  }

  /** The batches that a cut leaves whole. */
  function Whole(batches: seq<Batch>, cut: nat): (whole: seq<Batch>)
    requires forall b | b in batches :: WellFormedBatch(b)
    ensures whole <= batches
  {
    if batches == [] || |BatchBytes(batches[0])| > cut then []
    else [batches[0]] + Whole(batches[1..], cut - |BatchBytes(batches[0])|)
  }
}
