/**
 * The streaming loop shared by both directions: read one record into the
 * single reused message, write it out, reset the message, repeat; stop
 * cleanly at end of input, fatally at a read or write error. The reader is
 * a sequence of abstract outcomes and the writer a sink that may refuse a
 * write; the codecs and framings behind them are library code.
 */
module Transcode {
  import opened Wrappers

  /** The contents of a dynamic message: field number to its encoded value. */
  type Fields = map<nat, seq<bv8>>

  /** The one message instance, bound to a descriptor, filled and reset in place. */
  class DynamicMessage<M> {
    const descriptor: M
    var fields: Fields

    /** A new message holds no field. */
    constructor (descriptor: M)
      ensures this.descriptor == descriptor && IsZero()
    {
      this.descriptor := descriptor;
      fields := map[];
    }

    /** The zero state: no field set. */
    predicate IsZero()
      reads this
    {
      fields == map[]
    }

    /** Returns the message to its zero state. */
    method Reset()
      modifies this
      ensures IsZero()
    {
      fields := map[];
    }

    /**
     * A codec filling the message from one decoded record. Fields the record
     * sets replace those held; fields it leaves unset keep whatever value
     * they had, which is why the loop resets between records.
     */
    method Fill(record: Fields)
      modifies this
      ensures fields == old(fields) + record
    {
      fields := fields + record;
    }
  }

  /** What one read from the input produces. */
  datatype ReadOutcome =
    | Record(fields: Fields)
    | EndOfStream
    | ReadError(reason: string)

  /** The readers the tool can use; the size limit is handed to the binary ones as given. */
  datatype ReaderKind =
    | DelimitedReader(maxSize: int)   // varint length-prefixed binary
    | FullReader(maxSize: int)        // the whole remaining stream is one binary record
    | JsonReader                      // successive JSON values

  /** The writers the tool can use. */
  datatype WriterKind =
    | JsonWriter(indent: string, origName: bool)
    | DelimitedWriter
    | FullWriter

  /** The input stream: the outcomes of the reads still to come, consumed front first. */
  class Source {
    const kind: ReaderKind
    var pending: seq<ReadOutcome>

    constructor (kind: ReaderKind, outcomes: seq<ReadOutcome>)
      ensures this.kind == kind && pending == outcomes
    {
      this.kind := kind;
      pending := outcomes;
    }

    /**
     * Reads the next outcome, filling `msg` when it is a record. An input
     * with no outcome left reports end of stream and stays where it is.
     */
    method ReadInto<M>(msg: DynamicMessage<M>) returns (o: ReadOutcome)
      modifies this, msg
      ensures o == if old(pending) == [] then EndOfStream else old(pending)[0]
      ensures pending == if old(pending) == [] then [] else old(pending)[1..]
      ensures o.Record? ==> msg.fields == old(msg.fields) + o.fields
      ensures !o.Record? ==> msg.fields == old(msg.fields)
    {
      if pending == [] {
        o := EndOfStream;
      } else {
        o := pending[0];
        pending := pending[1..];
        if o.Record? {
          msg.Fill(o.fields);
        }
      }
    }
  }

  /**
   * When the output stops accepting writes. The loop ends at the first
   * refused write, so for a given input the output's behaviour comes down
   * to the number of writes it accepts before the first refusal and that
   * refusal's error.
   */
  datatype WriteLimit =
    | Unlimited
    | FailsAt(index: nat, reason: string)   // writes 0 .. index-1 go out; write `index` fails

  /** The error, if any, that the k-th write (counting from zero) meets. */
  function Refusal(limit: WriteLimit, k: nat): (err: Option<string>)
    ensures err.Some? <==> limit.FailsAt? && limit.index <= k
    ensures err.Some? ==> err.value == limit.reason
  {
    if limit.FailsAt? && limit.index <= k then Some(limit.reason) else None
  }

  /** The output stream: the records written so far, and when it will refuse. */
  class Sink {
    const kind: WriterKind
    const limit: WriteLimit
    var written: seq<Fields>

    constructor (kind: WriterKind, limit: WriteLimit)
      ensures this.kind == kind && this.limit == limit && written == []
    {
      this.kind := kind;
      this.limit := limit;
      written := [];
    }

    /** Writes the message's current fields; a refused write adds nothing. */
    method Write<M>(msg: DynamicMessage<M>) returns (err: Option<string>)
      modifies this
      ensures err == Refusal(limit, |old(written)|)
      ensures written == if err.None? then old(written) + [msg.fields] else old(written)
    {
      err := Refusal(limit, |written|);
      if err.None? {
        written := written + [msg.fields];
      }
    }
  }

  /** How the loop ends: cleanly, or fatally with the error's text. */
  datatype Stop =
    | Done
    | ReadFailed(reason: string)
    | WriteFailed(reason: string)

  /** A run of the loop: what it wrote, how many outcomes it consumed, how it ended. */
  datatype Trace = Trace(written: seq<Fields>, consumed: nat, stop: Stop)

  /**
   * The loop over `outcomes`, whose first write is the k-th write of the
   * sink. Every read starts from the zero state, so what goes out is the
   * record itself.
   */
  function Transcribe(outcomes: seq<ReadOutcome>, limit: WriteLimit, k: nat): (t: Trace)
    ensures |t.written| <= t.consumed <= |outcomes|
    ensures t.stop.WriteFailed? ==> |t.written| < |outcomes| && outcomes[|t.written|].Record?
    decreases |outcomes|
  {
    if outcomes == [] then Trace([], 0, Done)
    else
      match outcomes[0]
      case EndOfStream => Trace([], 1, Done)
      case ReadError(e) => Trace([], 1, ReadFailed(e))
      case Record(f) =>
        match Refusal(limit, k)
        case Some(e) => Trace([], 1, WriteFailed(e))
        case None => Extend([f], Transcribe(outcomes[1..], limit, k + 1))
  }

  /** `t` preceded by the successful writes of `prefix`, one outcome each. */
  function Extend(prefix: seq<Fields>, t: Trace): Trace
  {
    Trace(prefix + t.written, |prefix| + t.consumed, t.stop)
  }

  /**
   * A run over `input` that has accepted the records `out` so far: the whole
   * run is those writes followed by the run over the outcomes not yet read.
   */
  ghost predicate Resumes(input: seq<ReadOutcome>, out: seq<Fields>, limit: WriteLimit, k0: nat)
  {
    |out| <= |input| &&
    Transcribe(input, limit, k0) == Extend(out, Transcribe(input[|out|..], limit, k0 + |out|))
  }

  /** One more accepted record keeps the run resumable. */
  lemma ResumeStep(input: seq<ReadOutcome>, out: seq<Fields>, limit: WriteLimit, k0: nat)
    requires Resumes(input, out, limit, k0)
    requires |out| < |input| && input[|out|].Record? && Refusal(limit, k0 + |out|).None?
    ensures Resumes(input, out + [input[|out|].fields], limit, k0)
  {
  }

  /** The number of records at the front of `outcomes`, before the first non-record. */
  function LeadingRecords(outcomes: seq<ReadOutcome>): (n: nat)
    ensures n <= |outcomes|
    ensures forall i :: 0 <= i < n ==> outcomes[i].Record?
    ensures n < |outcomes| ==> !outcomes[n].Record?
    decreases |outcomes|
  {
    if outcomes == [] || !outcomes[0].Record? then 0
    else 1 + LeadingRecords(outcomes[1..])
  }

  /**
   * The loop writes the leading records and nothing else, in input order,
   * one write per record, and every write that went out was accepted.
   * The premise is that no earlier write was refused.
   */
  lemma {:induction false} WritesLeadingRecords(outcomes: seq<ReadOutcome>, limit: WriteLimit, k: nat)
    requires limit.FailsAt? ==> k <= limit.index
    ensures var t := Transcribe(outcomes, limit, k);
      |t.written| <= LeadingRecords(outcomes) &&
      (forall i :: 0 <= i < |t.written| ==> outcomes[i] == Record(t.written[i])) &&
      (limit.FailsAt? ==> k + |t.written| <= limit.index)
    decreases |outcomes|
  {
    if outcomes != [] && outcomes[0].Record? && Refusal(limit, k).None? {
      var f := outcomes[0].fields;
      var rest := Transcribe(outcomes[1..], limit, k + 1);
      WritesLeadingRecords(outcomes[1..], limit, k + 1);
      var t := Transcribe(outcomes, limit, k);
      assert t.written == [f] + rest.written;
      assert LeadingRecords(outcomes) == 1 + LeadingRecords(outcomes[1..]);
      forall i | 1 <= i < |t.written|
        ensures outcomes[i] == Record(t.written[i])
      {
        assert t.written[i] == rest.written[i - 1];
        assert outcomes[1..][i - 1] == outcomes[i];
      }
    }
  }

  /** When the output accepts every leading record, the loop writes every one of them. */
  lemma {:induction false} WritesAllWhenAccepted(outcomes: seq<ReadOutcome>, limit: WriteLimit, k: nat)
    requires limit.FailsAt? ==> k + LeadingRecords(outcomes) <= limit.index
    ensures |Transcribe(outcomes, limit, k).written| == LeadingRecords(outcomes)
    decreases |outcomes|
  {
    if outcomes != [] && outcomes[0].Record? {
      assert LeadingRecords(outcomes) == 1 + LeadingRecords(outcomes[1..]);
      WritesAllWhenAccepted(outcomes[1..], limit, k + 1);
    }
  }

  /**
   * How the loop ends, with `n` the number of leading records and `w` the
   * number written: cleanly exactly when all n went out and the next
   * outcome is end of stream (or there is none); on a read error exactly
   * when all n went out and the next outcome is that error; on a write error
   * exactly when fewer than n went out, and then the refused write is
   * record w. It consumes one outcome past the last write, unless the input
   * ran out. The premise is that no earlier write was refused.
   */
  lemma {:induction false} StopsAtFirstNonRecord(outcomes: seq<ReadOutcome>, limit: WriteLimit, k: nat)
    requires limit.FailsAt? ==> k <= limit.index
    ensures var t := Transcribe(outcomes, limit, k);
      var n := LeadingRecords(outcomes);
      var w := |t.written|;
      (t.stop == Done <==> w == n && (n == |outcomes| || outcomes[n] == EndOfStream)) &&
      (t.stop.ReadFailed? <==> w == n && n < |outcomes| && outcomes[n].ReadError?) &&
      (t.stop.ReadFailed? ==> t.stop.reason == outcomes[n].reason) &&
      (t.stop.WriteFailed? <==> w < n) &&
      (t.stop.WriteFailed? ==> limit == FailsAt(k + w, t.stop.reason)) &&
      t.consumed == (if w == |outcomes| then w else w + 1)
    decreases |outcomes|
  {
    WritesLeadingRecords(outcomes, limit, k);
    if outcomes != [] && outcomes[0].Record? && Refusal(limit, k).None? {
      StopsAtFirstNonRecord(outcomes[1..], limit, k + 1);
      assert LeadingRecords(outcomes) == 1 + LeadingRecords(outcomes[1..]);
    }
  }

  /**
   * One pass of the loop body: read into the message; on end of stream or
   * a read error, stop; otherwise write the message, stop if the write is
   * refused, and reset the message. `None` means the loop goes round again.
   */
  method Turn<M>(src: Source, msg: DynamicMessage<M>, sink: Sink) returns (stop: Option<Stop>)
    requires msg.IsZero()
    modifies src, msg, sink
    ensures var p := old(src.pending);
      var t := Transcribe(p, sink.limit, |old(sink.written)|);
      stop.Some? ==>
        stop.value == t.stop && t.written == [] &&
        sink.written == old(sink.written) && src.pending == p[t.consumed..]
    ensures var p := old(src.pending);
      var k := |old(sink.written)|;
      stop.None? ==>
        p != [] && p[0].Record? && Refusal(sink.limit, k).None? &&
        sink.written == old(sink.written) + [p[0].fields] && src.pending == p[1..]
    ensures stop.Some? && stop.value.WriteFailed? ==>
      old(src.pending) != [] && old(src.pending)[0].Record? && msg.fields == old(src.pending)[0].fields
    ensures !(stop.Some? && stop.value.WriteFailed?) ==> msg.IsZero()
  {
    var o := src.ReadInto(msg);
    match o {
      case EndOfStream =>
        stop := Some(Done);
      case ReadError(e) =>
        stop := Some(ReadFailed(e));
      case Record(f) =>
        assert msg.fields == f;
        var err := sink.Write(msg);
        if err.Some? {
          stop := Some(WriteFailed(err.value));
        } else {
          msg.Reset();
          stop := None;
        }
    }
  }

  /**
   * Both transcode loops of the tool: turn after turn until one stops. The
   * message is in its zero state before every read; after a clean end or a
   * read error it is zero again, while a refused write leaves it holding the
   * record that was refused.
   */
  method Pump<M>(src: Source, msg: DynamicMessage<M>, sink: Sink) returns (stop: Stop)
    requires msg.IsZero()
    modifies src, msg, sink
    ensures var t := Transcribe(old(src.pending), sink.limit, |old(sink.written)|);
      stop == t.stop &&
      sink.written == old(sink.written) + t.written &&
      src.pending == old(src.pending)[t.consumed..]
    ensures stop.WriteFailed? ==>
      var w := |sink.written| - |old(sink.written)|;
      0 <= w < |old(src.pending)| && old(src.pending)[w].Record? &&
      msg.fields == old(src.pending)[w].fields
    ensures !stop.WriteFailed? ==> msg.IsZero()
  {
    ghost var input := src.pending;
    ghost var before := sink.written;
    ghost var out: seq<Fields> := [];
    while true
      invariant msg.IsZero()
      invariant sink.written == before + out
      invariant |out| <= |input| && src.pending == input[|out|..]
      invariant Resumes(input, out, sink.limit, |before|)
      decreases |src.pending|
    {
      ghost var rest := Transcribe(src.pending, sink.limit, |before| + |out|);
      var turn := Turn(src, msg, sink);
      if turn.Some? {
        ghost var whole := Transcribe(input, sink.limit, |before|);
        assert whole == Extend(out, rest);
        assert rest.written == [] && whole.written == out;
        assert input[|out|..][rest.consumed..] == input[|out| + rest.consumed..];
        return turn.value;
      }
      ResumeStep(input, out, sink.limit, |before|);
      assert input[|out|..][1..] == input[|out| + 1..];
      out := out + [input[|out|].fields];
    }
  }
}
