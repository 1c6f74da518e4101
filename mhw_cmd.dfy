/**
  The per-command scaffolding that mhw_def.h generates for every hardware
  command X of a generation-specific implementation:

  - GetCmdPar_X(reset): the single owned parameter record, reset to its
    default value on request;
  - GetCmdByteSize_X(): the constant size of the command's encoding;
  - SetCmd_X(cmdData): the overridable step that fills a fresh encoding from
    the parameter record (by default a no-op success);
  - AddCmd_X(cmdBuf, batchBuf, extraData, extraDataSize): record the current
    buffers, run the Set step, append the encoding and, only when a payload
    is given with a positive size, append the payload too.

  An encoding is an opaque fixed-length byte sequence; the command buffer and
  batch buffer are append-only byte sequences with a capacity.
 */
module MhwCmd {
  import opened Wrappers

  /** MOS_STATUS, reduced to the codes this layer produces or passes on. */
  datatype Status = Success | InvalidParameter | NullPointer | NoSpace | Unknown

  // ---------------------------------------------------------------------------
  // Output buffers and the append collaborator

  /**
    A snapshot of the buffer an append goes to: no buffer at all (both
    pointers null), or the bytes written so far and the buffer's capacity.
   */
  datatype Sink = NoSink | Sink(bytes: seq<bv8>, capacity: nat)

  /**
    One append of `data`: it fails with NullPointer when there is no buffer and
    with NoSpace when the data does not fit; a failed append writes nothing.
   */
  function Append(sink: Sink, data: seq<bv8>): (Status, Sink)
  {
    match sink
    case NoSink => (NullPointer, NoSink)
    case Sink(bytes, capacity) =>
      if |bytes| + |data| <= capacity then (Success, Sink(bytes + data, capacity))
      else (NoSpace, sink)
  }

  /** A command buffer (MOS_COMMAND_BUFFER) or batch buffer (MHW_BATCH_BUFFER). */
  class OutputBuffer {
    var bytes: seq<bv8>
    const capacity: nat

    ghost predicate Valid()
      reads this
    {
      |bytes| <= capacity
    }

    constructor (capacity: nat)
      ensures Valid() && bytes == [] && this.capacity == capacity
    {
      this.capacity := capacity;
      bytes := [];
    }
  }

  /** The buffer the append collaborator writes to: the command buffer when given, else the batch buffer. */
  function Select(cmdBuf: OutputBuffer?, batchBuf: OutputBuffer?): OutputBuffer?
  {
    if cmdBuf != null then cmdBuf else batchBuf
  }

  function Targets(cmdBuf: OutputBuffer?, batchBuf: OutputBuffer?): set<OutputBuffer>
  {
    var t := Select(cmdBuf, batchBuf);
    if t == null then {} else {t}
  }

  /** The current state of the selected buffer, as a value. */
  function SinkOf(cmdBuf: OutputBuffer?, batchBuf: OutputBuffer?): Sink
    reads Targets(cmdBuf, batchBuf)
  {
    var t := Select(cmdBuf, batchBuf);
    if t == null then NoSink else Sink(t.bytes, t.capacity)
  }

  /**
    Mhw_AddCommandCmdOrBB: append `data` to the selected buffer, or fail
    without writing anything.
   */
  method AddCommandCmdOrBB(cmdBuf: OutputBuffer?, batchBuf: OutputBuffer?, data: seq<bv8>) returns (s: Status)
    requires Select(cmdBuf, batchBuf) != null ==> Select(cmdBuf, batchBuf).Valid()
    modifies Targets(cmdBuf, batchBuf)
    ensures Select(cmdBuf, batchBuf) != null ==> Select(cmdBuf, batchBuf).Valid()
    ensures (s, SinkOf(cmdBuf, batchBuf)) == Append(old(SinkOf(cmdBuf, batchBuf)), data)
  {
    var t := Select(cmdBuf, batchBuf);
    if t == null {
      return NullPointer;
    }
    if |t.bytes| + |data| <= t.capacity {
      t.bytes := t.bytes + data;
      s := Success;
    } else {
      s := NoSpace;
    }
  }

  /** A failed append leaves the buffer as it was; a successful one appends exactly `data`. */
  lemma AppendAllOrNothing(sink: Sink, data: seq<bv8>)
    ensures var (s, after) := Append(sink, data);
      && (s != Success ==> after == sink)
      && (s == Success <==> sink.Sink? && |sink.bytes| + |data| <= sink.capacity)
      && (s == Success ==> after == Sink(sink.bytes + data, sink.capacity))
  {
  }

  // ---------------------------------------------------------------------------
  // The emission policy of AddCmd_X, as a function of values

  /** The extra payload is appended only when the pointer is non-null and the size is positive. */
  predicate HasExtra(extraData: Option<seq<bv8>>, extraDataSize: nat)
  {
    extraData.Some? && extraDataSize > 0
  }

  /** The bytes the second append writes: the first extraDataSize bytes behind the pointer. */
  function Payload(extraData: Option<seq<bv8>>, extraDataSize: nat): (p: seq<bv8>)
    requires extraData.Some? ==> extraDataSize <= |extraData.value|
    ensures |p| == if HasExtra(extraData, extraDataSize) then extraDataSize else 0
  {
    if HasExtra(extraData, extraDataSize) then extraData.value[..extraDataSize] else []
  }

  /**
    What AddCmd_X does to the selected buffer, given the outcome of the Set
    step (its status and the encoding it filled): stop with the Set status,
    else append the encoding, else append the payload when there is one.
   */
  function Emit(filled: (Status, seq<bv8>), sink: Sink, extraData: Option<seq<bv8>>, extraDataSize: nat): (r: (Status, Sink))
    requires extraData.Some? ==> extraDataSize <= |extraData.value|
    ensures r.1.Sink? == sink.Sink?
    ensures r.0 == Success ==>
      sink.Sink? && r.1 == Sink(sink.bytes + filled.1 + Payload(extraData, extraDataSize), sink.capacity)
  {
    if filled.0 != Success then (filled.0, sink)
    else
      var (s1, afterCmd) := Append(sink, filled.1);
      if s1 != Success then (s1, afterCmd)
      else if HasExtra(extraData, extraDataSize) then Append(afterCmd, Payload(extraData, extraDataSize))
      else (Success, afterCmd)
  }

  /** A failing Set step returns its own status and appends nothing. */
  lemma EmitSetFailureAppendsNothing(filled: (Status, seq<bv8>), sink: Sink, extraData: Option<seq<bv8>>, extraDataSize: nat)
    requires extraData.Some? ==> extraDataSize <= |extraData.value|
    requires filled.0 != Success
    ensures Emit(filled, sink, extraData, extraDataSize) == (filled.0, sink)
  {
  }

  /**
    AddCmd_X succeeds exactly when the Set step succeeds, there is a buffer,
    and encoding plus payload fit; the buffer then holds the old bytes, the
    encoding and the payload, in that order.
   */
  lemma EmitSuccess(filled: (Status, seq<bv8>), sink: Sink, extraData: Option<seq<bv8>>, extraDataSize: nat)
    requires extraData.Some? ==> extraDataSize <= |extraData.value|
    ensures var (s, after) := Emit(filled, sink, extraData, extraDataSize);
      && (s == Success <==>
            filled.0 == Success && sink.Sink? &&
            |sink.bytes| + |filled.1| + |Payload(extraData, extraDataSize)| <= sink.capacity)
      && (s == Success ==>
            after == Sink(sink.bytes + filled.1 + Payload(extraData, extraDataSize), sink.capacity))
  {
  }

  /**
    Two appends, two commitments: when the encoding fits but the payload does
    not, the encoding stays written and NoSpace is returned. When the encoding
    itself does not fit, nothing is written.
   */
  lemma EmitPartialCommit(filled: (Status, seq<bv8>), sink: Sink, extraData: Option<seq<bv8>>, extraDataSize: nat)
    requires extraData.Some? ==> extraDataSize <= |extraData.value|
    requires filled.0 == Success && sink.Sink?
    ensures |sink.bytes| + |filled.1| > sink.capacity ==>
      Emit(filled, sink, extraData, extraDataSize) == (NoSpace, sink)
    ensures |sink.bytes| + |filled.1| <= sink.capacity < |sink.bytes| + |filled.1| + |Payload(extraData, extraDataSize)| ==>
      Emit(filled, sink, extraData, extraDataSize) == (NoSpace, Sink(sink.bytes + filled.1, sink.capacity))
  {
  }

  /**
    Whatever happens, the buffer is only ever extended: the old bytes stay a
    prefix, the capacity is kept and is never exceeded.
   */
  lemma EmitAppendOnly(filled: (Status, seq<bv8>), sink: Sink, extraData: Option<seq<bv8>>, extraDataSize: nat)
    requires extraData.Some? ==> extraDataSize <= |extraData.value|
    requires sink.Sink? ==> |sink.bytes| <= sink.capacity
    ensures var after := Emit(filled, sink, extraData, extraDataSize).1;
      && after.Sink? == sink.Sink?
      && (sink.Sink? ==>
            after.capacity == sink.capacity && |after.bytes| <= after.capacity &&
            |sink.bytes| <= |after.bytes| && after.bytes[..|sink.bytes|] == sink.bytes)
  {
  }

  // ---------------------------------------------------------------------------
  // The per-command implementation object

  /** The default SetCmd_X: success, leaving the fresh encoding as it was. */
  function DefaultSetCmd<P>(params: P, cmdData: seq<bv8>): (r: (Status, seq<bv8>))
    ensures r.0 == Success && r.1 == cmdData
  {
    (Success, cmdData)
  }

  /** With the default Set step, a successful AddCmd_X appends the default-constructed encoding itself. */
  lemma DefaultSetCmdEmitsFreshEncoding<P>(params: P, encoding: seq<bv8>, sink: Sink)
    requires sink.Sink? && |sink.bytes| + |encoding| <= sink.capacity
    ensures Emit(DefaultSetCmd(params, encoding), sink, None, 0) == (Success, Sink(sink.bytes + encoding, sink.capacity))
  {
  }

  /** The shared, owned parameter record of one command (what m_X_Params points to). */
  class ParamRecord<P> {
    var value: P

    constructor (value: P)
      ensures this.value == value
    {
      this.value := value;
    }
  }

  /**
    The members the implementation macros generate for one command X, with
    parameter record type P. `freshEncoding` is the value of a newly declared
    X_CMD structure; `encodingSize` is sizeof(X_CMD); `setCmd` is the
    (possibly overridden) SetCmd_X, which reads the parameter record and
    fills the encoding it is given.
   */
  class CommandImpl<P(!new)> {
    const paramsRef: ParamRecord<P>
    const defaultParams: P
    const encodingSize: nat
    const freshEncoding: seq<bv8>
    const setCmd: (P, seq<bv8>) -> (Status, seq<bv8>)
    var currentCmdBuf: OutputBuffer?
    var currentBatchBuf: OutputBuffer?

    /** The encoding has its fixed size, and Set writes into it without resizing it. */
    ghost predicate Valid()
      reads this
    {
      && |freshEncoding| == encodingSize
      && forall p: P, e: seq<bv8> :: |e| == encodingSize ==> |setCmd(p, e).1| == encodingSize
    }

    /** An implementation whose SetCmd_X is the default no-op. */
    constructor Default(defaultParams: P, freshEncoding: seq<bv8>)
      ensures Valid() && fresh(paramsRef)
      ensures paramsRef.value == defaultParams && this.defaultParams == defaultParams
      ensures this.freshEncoding == freshEncoding && encodingSize == |freshEncoding|
      ensures setCmd == DefaultSetCmd
      ensures currentCmdBuf == null && currentBatchBuf == null
    {
      paramsRef := new ParamRecord(defaultParams);
      this.defaultParams := defaultParams;
      this.freshEncoding := freshEncoding;
      encodingSize := |freshEncoding|;
      setCmd := DefaultSetCmd;
      currentCmdBuf, currentBatchBuf := null, null;
    }

    /** An implementation that overrides SetCmd_X. */
    constructor Overriding(defaultParams: P, freshEncoding: seq<bv8>, setCmd: (P, seq<bv8>) -> (Status, seq<bv8>))
      requires forall p: P, e: seq<bv8> :: |e| == |freshEncoding| ==> |setCmd(p, e).1| == |freshEncoding|
      ensures Valid() && fresh(paramsRef)
      ensures paramsRef.value == defaultParams && this.defaultParams == defaultParams
      ensures this.freshEncoding == freshEncoding && encodingSize == |freshEncoding|
      ensures this.setCmd == setCmd
      ensures currentCmdBuf == null && currentBatchBuf == null
    {
      paramsRef := new ParamRecord(defaultParams);
      this.defaultParams := defaultParams;
      this.freshEncoding := freshEncoding;
      encodingSize := |freshEncoding|;
      this.setCmd := setCmd;
      currentCmdBuf, currentBatchBuf := null, null;
    }

    /**
      GetCmdPar_X: always the same owned record; with `reset` it is first
      overwritten with the default value, without it nothing changes.
     */
    method GetCmdPar(reset: bool) returns (par: ParamRecord<P>)
      modifies paramsRef
      ensures par == paramsRef
      ensures par.value == if reset then defaultParams else old(paramsRef.value)
    {
      if reset {
        paramsRef.value := defaultParams;
      }
      par := paramsRef;
    }

    /** GetCmdByteSize_X: the size of the encoding, whatever the state. */
    function GetCmdByteSize(): (n: nat)
      requires Valid()
      reads this
      ensures n == |freshEncoding|
    {
      encodingSize
    }

    /**
      AddCmd_X: remember both buffers, run Set on a fresh encoding, then emit
      as `Emit` describes. The parameter record is read, not changed.
     */
    method AddCmd(cmdBuf: OutputBuffer?, batchBuf: OutputBuffer? := null,
                  extraData: Option<seq<bv8>> := None, extraDataSize: nat := 0)
      returns (s: Status)
      requires Valid()
      requires extraData.Some? ==> extraDataSize <= |extraData.value|
      requires Select(cmdBuf, batchBuf) != null ==> Select(cmdBuf, batchBuf).Valid()
      modifies this, Targets(cmdBuf, batchBuf)
      ensures Valid()
      ensures Select(cmdBuf, batchBuf) != null ==> Select(cmdBuf, batchBuf).Valid()
      ensures currentCmdBuf == cmdBuf && currentBatchBuf == batchBuf
      ensures paramsRef.value == old(paramsRef.value)
      ensures (s, SinkOf(cmdBuf, batchBuf)) ==
        Emit(setCmd(paramsRef.value, freshEncoding), old(SinkOf(cmdBuf, batchBuf)), extraData, extraDataSize)
      ensures s == Success ==>
        |SinkOf(cmdBuf, batchBuf).bytes| ==
          |old(SinkOf(cmdBuf, batchBuf)).bytes| + GetCmdByteSize() + |Payload(extraData, extraDataSize)|
    {
      currentCmdBuf := cmdBuf;
      currentBatchBuf := batchBuf;
      var cmdData := freshEncoding;
      var filled := setCmd(paramsRef.value, cmdData);
      if filled.0 != Success {
        return filled.0;
      }
      cmdData := filled.1;
      s := AddCommandCmdOrBB(cmdBuf, batchBuf, cmdData);
      if s != Success {
        return;
      }
      if extraData.Some? && extraDataSize > 0 {
        s := AddCommandCmdOrBB(cmdBuf, batchBuf, extraData.value[..extraDataSize]);
        if s != Success {
          return;
        }
      }
      s := Success;
    }
  }
}
