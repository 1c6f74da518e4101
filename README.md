# MHW command scaffolding and numeric helpers, in Dafny

This project models `mhw_def.h` of the media driver's hardware layer (MHW).
The header has two parts, and the model covers both.

- **Numeric helpers** in `namespace mhw` (module `MhwHelpers`). `Clip3` is a
  three-way clip that tests the low bound first. `MmcEnabled` and
  `MmcRcEnabled` are memory-compression predicates. `GetHwTileType` maps a
  surface tile type to the hardware tile-mode code.
- **Per-command scaffolding** that the `_MHW_CMD_ALL_DEF_FOR_IMPL*` macros
  generate for every hardware command `X` (module `MhwCmd`), plus the
  feature-composition macro `_MHW_SETPARAMS_AND_ADDCMD` (module `MhwFeature`).
  - `CommandImpl<P>` is the implementation object of one command with
    parameter-record type `P`. It owns one `ParamRecord<P>` (what `m_X_Params`
    points to), the size of the encoding (`sizeof(X_CMD)`), the value of a
    newly declared `X_CMD`, the Set step, and the fields `m_currentCmdBuf` and
    `m_currentBatchBuf`.
  - `GetCmdPar` always returns the same owned record. It resets the record
    to its default value only when asked to.
  - `GetCmdByteSize` is the constant size of the encoding.
  - `AddCmd` records both buffers, runs the Set step on a fresh encoding, and
    appends the encoding. Only when the payload pointer is non-null and its
    size is positive does it make a second, independent append of the payload.
  - The pure function `MhwCmd.Emit` states what `AddCmd` does to the buffer.
    The lemmas next to it prove the all-or-nothing first append, the partial
    commit when only the payload fails, the growth by `GetCmdByteSize()`, and
    that the buffer is append-only.
  - `MhwFeature` models the composition. It resets the record, applies the
    caller's own setter, and then walks the contributors in list order (the
    loop in `RunFeatureSetters`). `ApplyAll` is the value-level walk. The
    lemmas over it prove last-writer-wins, that contributors without the
    setter are skipped, and that walks compose over concatenation.
  - `MhwScenarios` holds client code. It emits a 16-byte command with one
    field, emits an 8-byte trailing payload, has two contributors override
    one field, and shows the dropped-status finding below.

Where a description of this header and the code disagree, the model follows
the code:

- `Clip3` with inverted bounds (`x > y`) does not always return `x`. Values
  `z >= x` fall through to the `z > y` branch and give `y`. For example,
  `Clip3(10, 5, 10) == 5` (`MhwHelpers.Clip3InvertedBounds`,
  `MhwHelpers.Clip3InvertedExample`).
- `AddCmd` is not all-or-nothing per call. When the encoding is appended and
  the payload append then fails, the encoding stays in the buffer and the
  failure status is returned (`MhwCmd.EmitPartialCommit`).
- In the composition macro, line 148 is a bare statement `AddCmd(CMD, __VA_ARGS__);`
  with no status check around it. `AddCmd` there is a macro parameter that the
  caller supplies, and its expansion is not in this header. If that expansion
  is an unchecked call, `AddCmd`'s status is dropped. See "Findings".

## Model

| member | source | states |
|---|---|---|
| `MhwHelpers.Clip3` | media_softlet/agnostic/common/hw/mhw_def.h:159-177 | the result is one of the three arguments, so it stays in 32 bits; with `x <= y` it lies in `[x, y]`; a `z` already in `[x, y]` is returned unchanged |
| `MhwHelpers.Clip3IsClamp` | media_softlet/agnostic/common/hw/mhw_def.h:159-177 | with ordered bounds, Clip3 equals an independently written textbook clamp |
| `MhwHelpers.Clip3InvertedBounds` | media_softlet/agnostic/common/hw/mhw_def.h:163-170 | with `x > y`, the branch order gives `x` exactly for `z < x` and `y` for every other `z`, so the low bound does not always win |
| `MhwHelpers.Clip3InvertedExample` | media_softlet/agnostic/common/hw/mhw_def.h:163-170 | `Clip3(10, 5, 10) == 5` and `Clip3(10, 5, 7) == 10` |
| `MhwHelpers.Clip3IdempotentIff` | media_softlet/agnostic/common/hw/mhw_def.h:159-177 | clipping a clipped value changes nothing if and only if `x <= y`; with inverted bounds a second clip swaps `x` and `y` |
| `MhwHelpers.MmcEnabled` | media_softlet/agnostic/common/hw/mhw_def.h:179-182 | true exactly for the RC and MC states; false for the disabled, horizontal and vertical states |
| `MhwHelpers.MmcRcEnabled` | media_softlet/agnostic/common/hw/mhw_def.h:184-187 | true exactly for the RC state; it implies `MmcEnabled` and differs from it only on MC |
| `MhwHelpers.MmcRcImpliesMmc` | media_softlet/agnostic/common/hw/mhw_def.h:179-187 | `MmcRcEnabled` implies `MmcEnabled`; only the MC state has compression without render compression; `MmcEnabled` is false exactly for the disabled, horizontal and vertical states |
| `MhwHelpers.GetHwTileType` | media_softlet/agnostic/common/hw/mhw_def.h:189-215 | with GMM tiling enabled, the GMM tile mode is returned unchanged for any tile type; otherwise the code is at most 3 |
| `MhwHelpers.HwTileTypeDecodes` | media_softlet/agnostic/common/hw/mhw_def.h:198-212 | without GMM tiling the code is 0 iff linear, 1 iff YS, 2 iff X, and 3 iff any other tile type |
| `MhwCmd.AddCommandCmdOrBB` | media_softlet/agnostic/common/hw/mhw_def.h:107-110 | one append to the selected buffer has the effect `Append` describes on its state |
| `MhwCmd.AppendAllOrNothing` | media_softlet/agnostic/common/hw/mhw_def.h:107 | one append succeeds exactly when there is a buffer and the data fit; a failed append leaves the buffer as it was; a successful one appends exactly the data |
| `MhwCmd.Payload` | media_softlet/agnostic/common/hw/mhw_def.h:108-110 | the second append writes `extraDataSize` bytes when the pointer is non-null and the size is positive, and nothing otherwise |
| `MhwCmd.Emit` | media_softlet/agnostic/common/hw/mhw_def.h:102-113 | the value-level AddCmd: it never creates or removes the target buffer, and on success the buffer holds the old bytes, the encoding and the payload, in that order |
| `MhwCmd.EmitSetFailureAppendsNothing` | media_softlet/agnostic/common/hw/mhw_def.h:103 | a failing Set step makes AddCmd return the Set step's own status with the buffer untouched |
| `MhwCmd.EmitSuccess` | media_softlet/agnostic/common/hw/mhw_def.h:102-113 | AddCmd succeeds if and only if Set succeeds, there is a buffer, and encoding plus payload fit; the buffer then holds old bytes, encoding, payload, in that order |
| `MhwCmd.EmitPartialCommit` | media_softlet/agnostic/common/hw/mhw_def.h:107-111 | if the encoding does not fit, NoSpace with nothing written; if the encoding fits but the payload does not, NoSpace with the encoding left committed |
| `MhwCmd.EmitAppendOnly` | media_softlet/agnostic/common/hw/mhw_def.h:107-111 | whatever the outcome, the old bytes remain a prefix and the capacity is kept and never exceeded |
| `MhwCmd.DefaultSetCmd` | media_softlet/agnostic/common/hw/mhw_def.h:125 | the default Set step succeeds and leaves the encoding it is given unchanged |
| `MhwCmd.DefaultSetCmdEmitsFreshEncoding` | media_softlet/agnostic/common/hw/mhw_def.h:125 | the default Set step succeeds and writes nothing, so AddCmd appends the newly declared encoding unchanged |
| `MhwCmd.CommandImpl.Default` | media_softlet/agnostic/common/hw/mhw_def.h:121-126 | a new implementation owns a fresh record holding the default value and uses the default Set step |
| `MhwCmd.CommandImpl.Overriding` | media_softlet/agnostic/common/hw/mhw_def.h:78 | an implementation may override the Set step with any step that keeps the encoding's fixed size |
| `MhwCmd.CommandImpl.GetCmdPar` | media_softlet/agnostic/common/hw/mhw_def.h:80-88 | returns the one owned record; with `reset` the record equals the default value whatever it held, without it the record is unchanged |
| `MhwCmd.CommandImpl.GetCmdByteSize` | media_softlet/agnostic/common/hw/mhw_def.h:90-94 | the length of the command's fixed encoding (`sizeof`), a constant of the object that neither AddCmd nor GetCmdPar changes; AddCmd's contract uses it as the growth of the fixed part |
| `MhwCmd.CommandImpl.AddCmd` | media_softlet/agnostic/common/hw/mhw_def.h:96-113 | sets the current command and batch buffers even on failure; the status and the buffer are as `Emit` gives for the Set outcome; on success the buffer grew by `GetCmdByteSize()` plus the payload size; the record is not changed |
| `MhwFeature.ApplyAll` | media_softlet/agnostic/common/hw/mhw_def.h:147 | the value-level walk: a list in which no contributor has the setter leaves the record unchanged |
| `MhwFeature.RunFeatureSetters` | media_softlet/agnostic/common/hw/mhw_def.h:147 | the walk applies every contributor that has the setter to the shared record, in list order (`ApplyAll`) |
| `MhwFeature.ApplyAllConcat` | media_softlet/agnostic/common/hw/mhw_def.h:147 | walking `a + b` is walking `a` and then `b` from where `a` left the record |
| `MhwFeature.ApplyAllSkipsMissing` | media_softlet/agnostic/common/hw/mhw_def.h:142-147 | the walk equals chaining only the present setters, in order; contributors without the setter are skipped |
| `MhwFeature.MissingContributorHasNoEffect` | media_softlet/agnostic/common/hw/mhw_def.h:147 | removing a contributor without the setter from the list does not change the resulting record |
| `MhwFeature.LastWriterDecides` | media_softlet/agnostic/common/hw/mhw_def.h:147 | a field that contributor `k` computes and no later contributor touches holds `k`'s value, computed from the record the earlier contributors left |
| `MhwFeature.LastWriterWins` | media_softlet/agnostic/common/hw/mhw_def.h:147 | a field written by contributor `k` and left alone by every later contributor holds `k`'s value after the walk |
| `MhwFeature.LaterContributorOverrides` | media_softlet/agnostic/common/hw/mhw_def.h:147 | for contributors `[A, B]` that both write a field, the field ends with B's value |
| `MhwFeature.ComposedIsOneWalk` | media_softlet/agnostic/common/hw/mhw_def.h:141-147 | the composed record is one walk over `[own] + features` from the default value, so the caller's own setter runs first and contributors override it |
| `MhwFeature.SetParamsAndAddCmdChecked` | media_softlet/agnostic/common/hw/mhw_def.h:139-149 | the record ends as the composition of the setters over the default value, whatever it held before; the emission and the returned status are those of AddCmd on that record |
| `MhwFeature.SetParamsAndAddCmd` | media_softlet/agnostic/common/hw/mhw_def.h:139-149 | as written: the same final record and the same buffer contents, but no status reaches the caller |

## Left out

- Hardware command parser hooks (`MHW_HWCMDPARSER_*`, mhw_def.h:42-54 and 104-106): they only observe the command in diagnostic builds. They are modelled as no-ops, and `mhw_hwcmd_parser.h` is not part of this model.
- `Mhw_AddCommandCmdOrBB` is not part of this model. It is modelled as an append to a bounded byte sequence that writes all or nothing. The rule for picking the buffer (the command buffer when non-null, else the batch buffer, else a NullPointer failure) and the NoSpace status are stand-ins for that function's own rules.
- `LOOP_FEATURE_INTERFACE_RETURN` is not part of this model. Only the ordered walk that line 147 implies is modelled. A contributor's setter is a total function on the record with no failure channel, so the model has no early return on a contributor failure.
- The status of the caller's own setter (line 145) is discarded in the source. The model gives setters no status.
- `SetParamsAndAddCmd` and `SetParamsAndAddCmdChecked` fix the macro parameters `GetPar` and `AddCmd` of line 139: `GetPar(CMD, true)` is bound to `CommandImpl.GetCmdPar(true)` and `AddCmd(CMD, ...)` to `CommandImpl.AddCmd`. The macros that callers pass for them are not part of this model.
- The `dynamic_cast` capability test (line 142) is replaced by an explicit optional setter for the caller and for each contributor.
- Command binary layouts, `_MHW_CMD_DW_LOCATION`, `_MHW_CMD_ASSIGN_FIELD` (lines 151-155) and `_MHW_CMDSET_GETCMDPARAMS_AND_CALLBASE` (lines 133-137): an encoding is an opaque fixed-length byte sequence. An overriding Set step is an arbitrary function from the record and the fresh encoding to a status and an encoding of the same size. Any call it makes to the base Set step is part of that function. The Set step sees only the record and the encoding. In the source it is a member of the same object, so it may also read `m_currentCmdBuf` and `m_currentBatchBuf`, which lines 100-101 set just before the call at line 103. The model records those fields but no Set step reads them.
- `_MHW_CMD_ALL_DEF_FOR_ITF` (lines 115-119) only declares the abstract interface. The model has the implementation class only.
- Macro token pasting: one generic class `CommandImpl<P>` stands for the members generated for every command.
- `mhw::Pointer` / `MakePointer` shared ownership: the record is one heap object (`ParamRecord`) owned by the implementation.
- `MHW_FUNCTION_ENTER` and other tracing: no behaviour to model. `MHW_CHK_STATUS_RETURN` is modelled by its early return.
- Integer widths of `size_t` and of the 32-bit size that the append takes are not modelled. Buffer sizes and payload sizes are unbounded naturals.
- `MOS_TILE_TYPE`, `MOS_MEMCOMP_STATE`, `MOS_TILE_MODE_GMM` and `MOS_STATUS` are defined outside this header and are not part of this model. The tile and compression enums are listed with the driver's members. The functions single out only linear, YS and X, and MC and RC, so the other members do not matter. The GMM tile mode is a 32-bit unsigned code. `MOS_STATUS` is reduced to the codes the model produces.
- `AddCmd`, `SetParamsAndAddCmd` and `SetParamsAndAddCmdChecked` require that a non-null payload has at least `extraDataSize` bytes. In the source, reading past the buffer is the caller's fault.
- Concurrency: none in the source. Every operation is synchronous and runs on one thread.

## Findings

| source | as written | input that shows it | evidently intended | confidence | as-written member | corrected member |
|---|---|---|---|---|---|---|
| media_softlet/agnostic/common/hw/mhw_def.h:148 | line 148 is the bare statement `AddCmd(CMD, __VA_ARGS__);` with no status check. `AddCmd` is a caller-supplied macro parameter whose expansion is not in this header. If it expands to an unchecked call, as the model assumes, the status is dropped and the composed block reports nothing when emission fails. If it wraps the call in `MHW_CHK_STATUS_RETURN`, the status is kept and there is no bug | a 16-byte command into a buffer of capacity 8: AddCmd fails with NoSpace and writes nothing, and the caller of the composition carries on (`MhwScenarios.DroppedStatusScenario`) | the status is checked and returned like every other step here (`MHW_CHK_STATUS_RETURN`; the walk macro on line 147 is itself named as one that returns) | low, not executed; depends on the expansion of the caller's `AddCmd` macro | `MhwFeature.SetParamsAndAddCmd` | `MhwFeature.SetParamsAndAddCmdChecked` |
