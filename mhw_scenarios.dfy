/**
  Client code that exercises the command scaffolding the way a packet does,
  and proves what the caller sees from the contracts alone: a 16-byte
  command with one field, an emission with an 8-byte trailing payload, two
  contributors overriding the same field, and a too-small buffer.
 */
module MhwScenarios {
  import opened Wrappers
  import opened MhwCmd
  import opened MhwFeature

  /** The parameter record of a one-field command. */
  datatype FieldParams = FieldParams(field: bv8)

  /** A Set step that writes the field into byte 4 of the encoding. */
  function SetField(p: FieldParams, cmdData: seq<bv8>): (Status, seq<bv8>)
  {
    if |cmdData| >= 5 then (Success, cmdData[..4] + [p.field] + cmdData[5..]) else (Success, cmdData)
  }

  function Zeros(n: nat): (z: seq<bv8>)
    ensures |z| == n && forall i :: 0 <= i < n ==> z[i] == 0
  {
    seq(n, _ => 0)
  }

  /** Reset the record, set one field, emit: 16 bytes appear, the field among zeros. */
  method SingleFieldScenario(value: bv8)
  {
    var impl := new CommandImpl.Overriding(FieldParams(0), Zeros(16), SetField);
    var buf := new OutputBuffer(64);
    var par := impl.GetCmdPar(true);
    par.value := FieldParams(value);
    var s := impl.AddCmd(buf);
    assert s == Success;
    assert |buf.bytes| == 16 == impl.GetCmdByteSize();
    assert buf.bytes[4] == value;
    assert forall i :: 0 <= i < 16 && i != 4 ==> buf.bytes[i] == 0;
  }

  /** An 8-byte payload follows the 16-byte encoding byte for byte. */
  method ExtraPayloadScenario(payload: seq<bv8>)
    requires |payload| == 8
  {
    var impl := new CommandImpl.Default(FieldParams(0), Zeros(16));
    var buf := new OutputBuffer(64);
    var s := impl.AddCmd(buf, null, Some(payload), 8);
    assert s == Success;
    assert |buf.bytes| == 16 + 8;
    assert buf.bytes[..16] == Zeros(16);
    assert buf.bytes[16..] == payload;
  }

  /** A non-null payload with size 0 is not appended. */
  method EmptyPayloadScenario(payload: seq<bv8>)
  {
    var impl := new CommandImpl.Default(FieldParams(0), Zeros(16));
    var buf := new OutputBuffer(64);
    var s := impl.AddCmd(buf, null, Some(payload), 0);
    assert s == Success && buf.bytes == Zeros(16);
  }

  /** Contributors [A, B] both write the field: B's value is emitted, and a contributor without the setter changes nothing. */
  method FeatureOverrideScenario(a: bv8, b: bv8)
  {
    var impl := new CommandImpl.Overriding(FieldParams(0), Zeros(16), SetField);
    var buf := new OutputBuffer(64);
    var setA: FieldParams -> FieldParams := _ => FieldParams(a);
    var setB: FieldParams -> FieldParams := _ => FieldParams(b);
    SetParamsAndAddCmd(impl, None, [Some(setA), None, Some(setB)], buf, null, None, 0);
    LaterContributorOverrides(FieldParams(0), Some(setA), Some(setB), (p: FieldParams) => p.field, a, b);
    MissingContributorHasNoEffect(FieldParams(0), [Some(setA), None, Some(setB)], 1);
    assert [Some(setA), None, Some(setB)][..1] + [Some(setA), None, Some(setB)][2..] == [Some(setA), Some(setB)];
    assert impl.paramsRef.value.field == b;
    assert buf.bytes[4] == b;
  }

  /**
    A buffer too small for the encoding: the emission fails with NoSpace and
    writes nothing, but the composition as written returns no status, so its
    caller carries on as if the command had been emitted.
   */
  method DroppedStatusScenario()
  {
    var impl := new CommandImpl.Default(FieldParams(0), Zeros(16));
    var small := new OutputBuffer(8);
    SetParamsAndAddCmd(impl, None, [], small, null, None, 0);
    assert small.bytes == [];
    var s := SetParamsAndAddCmdChecked(impl, None, [], small, null, None, 0);
    assert s == NoSpace && small.bytes == [];
  }
}
