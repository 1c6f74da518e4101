/**
  The feature-composition protocol of `_MHW_SETPARAMS_AND_ADDCMD`: reset the
  command's parameter record, let the caller's own setter fill it (when the
  caller implements the command's setter), walk the feature contributors in
  list order letting each one that implements the setter update the same
  record, and finally emit the command with AddCmd_X.

  A setter is a function on the record; a caller or contributor that does not
  implement the command's setter capability is `None`.
 */
module MhwFeature {
  import opened Wrappers
  import opened MhwCmd

  type Setter<!P> = Option<P -> P>

  /** One caller or contributor applied to the record; one without the capability leaves it alone. */
  function ApplySetter<P>(value: P, setter: Setter<P>): P
  {
    match setter
    case None => value
    case Some(f) => f(value)
  }

  /** The walk over the contributors, in list order: the value after the last one has been applied. */
  function ApplyAll<P>(value: P, setters: seq<Setter<P>>): (r: P)
    ensures (forall j :: 0 <= j < |setters| ==> setters[j].None?) ==> r == value
    decreases |setters|
  {
    if setters == [] then value
    else ApplySetter(ApplyAll(value, setters[..|setters| - 1]), setters[|setters| - 1])
  }

  /** The record `_MHW_SETPARAMS_AND_ADDCMD` hands to AddCmd_X. */
  function ComposedParams<P>(defaultParams: P, own: Setter<P>, features: seq<Setter<P>>): P
  {
    ApplyAll(ApplySetter(defaultParams, own), features)
  }

  /** The setters that are present, in their original order. */
  function Present<P>(setters: seq<Setter<P>>): (fs: seq<P -> P>)
    ensures forall i :: 0 <= i < |fs| ==> Some(fs[i]) in setters
    ensures (forall j :: 0 <= j < |setters| ==> setters[j].Some?) ==> |fs| == |setters|
  {
    if setters == [] then []
    else
      var last := setters[|setters| - 1];
      Present(setters[..|setters| - 1]) + (if last.Some? then [last.value] else [])
  }

  /** Plain composition of functions, first one first; the reference for the walk. */
  function Chain<P>(value: P, fs: seq<P -> P>): P
  {
    if fs == [] then value else Chain(fs[0](value), fs[1..])
  }

  // ---------------------------------------------------------------------------
  // Properties of the walk

  /** Walking two lists one after the other is walking their concatenation. */
  lemma {:induction false} ApplyAllConcat<P>(value: P, a: seq<Setter<P>>, b: seq<Setter<P>>)
    ensures ApplyAll(value, a + b) == ApplyAll(ApplyAll(value, a), b)
    decreases |b|
  {
    if b == [] {
      assert a + b == a;
    } else {
      assert (a + b)[..|a + b| - 1] == a + b[..|b| - 1];
      ApplyAllConcat(value, a, b[..|b| - 1]);
    }
  }

  lemma {:induction false} ChainSnoc<P>(value: P, fs: seq<P -> P>, f: P -> P)
    ensures Chain(value, fs + [f]) == f(Chain(value, fs))
    decreases |fs|
  {
    if fs == [] {
      assert fs + [f] == [f];
    } else {
      assert (fs + [f])[1..] == fs[1..] + [f];
      ChainSnoc(fs[0](value), fs[1..], f);
    }
  }

  /**
    Contributors without the capability are skipped: the walk equals applying
    the present setters one after another, in list order.
   */
  lemma {:induction false} ApplyAllSkipsMissing<P>(value: P, setters: seq<Setter<P>>)
    ensures ApplyAll(value, setters) == Chain(value, Present(setters))
    decreases |setters|
  {
    if setters != [] {
      var init, last := setters[..|setters| - 1], setters[|setters| - 1];
      ApplyAllSkipsMissing(value, init);
      if last.Some? {
        ChainSnoc(value, Present(init), last.value);
      } else {
        assert Present(init) + [] == Present(init);
      }
    }
  }

  /** Removing a contributor that lacks the capability changes nothing. */
  lemma MissingContributorHasNoEffect<P>(value: P, setters: seq<Setter<P>>, k: nat)
    requires k < |setters| && setters[k].None?
    ensures ApplyAll(value, setters) == ApplyAll(value, setters[..k] + setters[k + 1..])
  {
    assert setters == setters[..k] + [setters[k]] + setters[k + 1..];
    ApplyAllConcat(value, setters[..k] + [setters[k]], setters[k + 1..]);
    ApplyAllConcat(value, setters[..k], [setters[k]]);
    ApplyAllConcat(value, setters[..k], setters[k + 1..]);
    var one: seq<Setter<P>> := [setters[k]];
    assert one[..0] == [];
  }

  /** The setter, if present, makes the field `get` equal to c, whatever the record held. */
  ghost predicate Writes<P(!new), T>(setter: Setter<P>, get: P -> T, c: T)
  {
    setter.Some? && forall u: P :: get(setter.value(u)) == c
  }

  /** The setter, if present, leaves the field `get` alone. */
  ghost predicate Keeps<P(!new), T>(setter: Setter<P>, get: P -> T)
  {
    setter.Some? ==> forall u: P :: get(setter.value(u)) == get(u)
  }

  /**
    The last contributor to touch a field decides it: if contributor k has the
    setter and no later contributor touches the field, the field holds what k
    computed from the record that the earlier contributors left it.
   */
  lemma {:induction false} LastWriterDecides<P(!new), T>(value: P, setters: seq<Setter<P>>, k: nat, get: P -> T)
    requires k < |setters| && setters[k].Some?
    requires forall j :: k < j < |setters| ==> Keeps(setters[j], get)
    ensures get(ApplyAll(value, setters)) == get(setters[k].value(ApplyAll(value, setters[..k])))
    decreases |setters|
  {
    var init := setters[..|setters| - 1];
    if k == |setters| - 1 {
      assert setters[..k] == init;
    } else {
      LastWriterDecides(value, init, k, get);
      assert init[..k] == setters[..k];
      assert Keeps(setters[|setters| - 1], get);
    }
  }

  /**
    Last writer wins: if contributor k writes c into a field and no later
    contributor touches that field, the field holds c after the walk.
   */
  lemma LastWriterWins<P(!new), T>(value: P, setters: seq<Setter<P>>, k: nat, get: P -> T, c: T)
    requires k < |setters| && Writes(setters[k], get, c)
    requires forall j :: k < j < |setters| ==> Keeps(setters[j], get)
    ensures get(ApplyAll(value, setters)) == c
  {
    LastWriterDecides(value, setters, k, get);
  }

  /** For contributors [A, B] that both write a field, the field ends up with B's value. */
  lemma LaterContributorOverrides<P(!new), T>(value: P, a: Setter<P>, b: Setter<P>, get: P -> T, ca: T, cb: T)
    requires Writes(a, get, ca) && Writes(b, get, cb)
    ensures get(ApplyAll(value, [a, b])) == cb
  {
    LastWriterWins(value, [a, b], 1, get, cb);
  }

  /**
    The caller's own setter runs before every contributor, on the reset
    record: the composed record is one walk over [own] + features starting
    from the default value, so a contributor writing a field overrides the
    caller's own value for it.
   */
  lemma ComposedIsOneWalk<P>(defaultParams: P, own: Setter<P>, features: seq<Setter<P>>)
    ensures ComposedParams(defaultParams, own, features) == ApplyAll(defaultParams, [own] + features)
  {
    ApplyAllConcat(defaultParams, [own], features);
    var one: seq<Setter<P>> := [own];
    assert one[..0] == [];
  }

  // ---------------------------------------------------------------------------
  // The imperative walk and the composed emission

  /** LOOP_FEATURE_INTERFACE_RETURN: apply each contributor that has the setter, in list order, to the shared record. */
  method RunFeatureSetters<P>(par: ParamRecord<P>, features: seq<Setter<P>>)
    modifies par
    ensures par.value == ApplyAll(old(par.value), features)
  {
    ghost var start := par.value;
    for i := 0 to |features|
      invariant par.value == ApplyAll(start, features[..i])
    {
      match features[i] {
        case Some(f) => par.value := f(par.value);
        case None =>
      }
      assert features[..i + 1][..i] == features[..i];
    }
    assert features[..|features|] == features;
  }

  /**
    `_MHW_SETPARAMS_AND_ADDCMD` with AddCmd_X's status returned to the caller.
    The record ends as the composition of the setters over the default value,
    whatever it held before, and the buffer is emitted from that record.
   */
  method SetParamsAndAddCmdChecked<P(!new)>(impl: CommandImpl<P>, own: Setter<P>, features: seq<Setter<P>>,
                                            cmdBuf: OutputBuffer?, batchBuf: OutputBuffer?,
                                            extraData: Option<seq<bv8>>, extraDataSize: nat)
    returns (s: Status)
    requires impl.Valid()
    requires extraData.Some? ==> extraDataSize <= |extraData.value|
    requires Select(cmdBuf, batchBuf) != null ==> Select(cmdBuf, batchBuf).Valid()
    modifies impl, impl.paramsRef, Targets(cmdBuf, batchBuf)
    ensures impl.Valid()
    ensures Select(cmdBuf, batchBuf) != null ==> Select(cmdBuf, batchBuf).Valid()
    ensures impl.paramsRef.value == ComposedParams(impl.defaultParams, own, features)
    ensures impl.currentCmdBuf == cmdBuf && impl.currentBatchBuf == batchBuf
    ensures (s, SinkOf(cmdBuf, batchBuf)) ==
      Emit(impl.setCmd(impl.paramsRef.value, impl.freshEncoding), old(SinkOf(cmdBuf, batchBuf)), extraData, extraDataSize)
  {
    var par := impl.GetCmdPar(true);
    if own.Some? {
      par.value := own.value(par.value);
    }
    RunFeatureSetters(par, features);
    s := impl.AddCmd(cmdBuf, batchBuf, extraData, extraDataSize);
  }

  /**
    `_MHW_SETPARAMS_AND_ADDCMD` as written, with its `AddCmd` parameter taken
    to expand to an unchecked call: the same steps, but AddCmd_X's status is
    dropped, so the caller cannot tell whether the command was emitted.
   */
  method SetParamsAndAddCmd<P(!new)>(impl: CommandImpl<P>, own: Setter<P>, features: seq<Setter<P>>,
                                     cmdBuf: OutputBuffer?, batchBuf: OutputBuffer?,
                                     extraData: Option<seq<bv8>>, extraDataSize: nat)
    requires impl.Valid()
    requires extraData.Some? ==> extraDataSize <= |extraData.value|
    requires Select(cmdBuf, batchBuf) != null ==> Select(cmdBuf, batchBuf).Valid()
    modifies impl, impl.paramsRef, Targets(cmdBuf, batchBuf)
    ensures impl.Valid()
    ensures Select(cmdBuf, batchBuf) != null ==> Select(cmdBuf, batchBuf).Valid()
    ensures impl.paramsRef.value == ComposedParams(impl.defaultParams, own, features)
    ensures impl.currentCmdBuf == cmdBuf && impl.currentBatchBuf == batchBuf
    ensures SinkOf(cmdBuf, batchBuf) ==
      Emit(impl.setCmd(impl.paramsRef.value, impl.freshEncoding), old(SinkOf(cmdBuf, batchBuf)), extraData, extraDataSize).1
  {
    var _ := SetParamsAndAddCmdChecked(impl, own, features, cmdBuf, batchBuf, extraData, extraDataSize);
  }
}
