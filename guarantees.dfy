/**
 * What the prefix checks of the pipeline configuration buy the slot codec: a
 * prefix of at most 20 bytes leaves room for the longest suffix, so every slot
 * identity of a validated pipeline has a name Postgres can store.
 */
module Guarantees {
  import opened Wrappers
  import opened Primitives
  import opened Text
  import opened Slots
  import opened SlotCleanup
  import opened Pipeline

  /** Powers of ten multiply by adding exponents. */
  lemma {:induction false} Pow10Add(a: nat, b: nat)
    ensures Pow10(a + b) == Pow10(a) * Pow10(b)
  {
    if a > 0 {
      Pow10Add(a - 1, b);
    }
  }

  /** A pipeline id has at most 20 decimal digits, and the largest has exactly 20. */
  lemma PipelineIdDigits(pipelineId: u64)
    ensures |Decimal(pipelineId as nat)| <= 20
    ensures |Decimal(U64Bound - 1)| == 20
  {
    Pow10Add(10, 10);
    assert Pow10(20) == 100_000_000_000_000_000_000;
    DecimalLengthAtMost(pipelineId as nat, 20);
    DecimalLengthAtMost(U64Bound - 1, 20);
    Pow10Add(10, 9);
    assert Pow10(19) == 10_000_000_000_000_000_000;
    DecimalLengthAtLeast(U64Bound - 1, 20);
  }

  /** A table id has at most 10 decimal digits, and the largest has exactly 10. */
  lemma TableIdDigits(tableId: TableId)
    ensures |Decimal(tableId as nat)| <= 10
    ensures |Decimal(U32Bound - 1)| == 10
  {
    assert Pow10(10) == 10_000_000_000;
    DecimalLengthAtMost(tableId as nat, 10);
    DecimalLengthAtMost(U32Bound - 1, 10);
    assert Pow10(9) == 1_000_000_000;
    DecimalLengthAtLeast(U32Bound - 1, 10);
  }

  /**
   * The longest suffix a slot name can have is "_table_sync_", 20 digits, '_'
   * and 10 digits: 43 bytes, which with a 20-byte prefix is exactly 63.
   */
  lemma LongestSuffix(pipelineId: u64, tableId: TableId, slotPrefix: Bytes)
    ensures |SlotName(TableSync(pipelineId, tableId, slotPrefix))| <= |slotPrefix| + 43
    ensures |SlotName(Apply(pipelineId, slotPrefix))| <= |slotPrefix| + 27
    ensures |SlotName(TableSync((U64Bound - 1) as u64, (U32Bound - 1) as u32, slotPrefix))| == |slotPrefix| + 43
    ensures MaxSlotPrefixLength + 43 == MaxSlotNameLength
  {
    PipelineIdDigits(pipelineId);
    TableIdDigits(tableId);
  }

  /**
   * A prefix that passes the configuration's length check makes every slot name
   * of every pipeline and table encode, and both prefix helpers succeed.
   */
  lemma ShortPrefixAlwaysEncodes(pipelineId: u64, tableId: TableId, slotPrefix: Bytes)
    requires |slotPrefix| <= MaxSlotPrefixLength
    ensures Encode(Apply(pipelineId, slotPrefix)).Ok?
    ensures Encode(TableSync(pipelineId, tableId, slotPrefix)).Ok?
    ensures ApplyPrefix(pipelineId, slotPrefix).Ok?
    ensures TableSyncPrefix(pipelineId, slotPrefix).Ok?
  {
    LongestSuffix(pipelineId, tableId, slotPrefix);
  }

  /** The bound is tight: one more byte of prefix and the largest identity no longer encodes. */
  lemma LongerPrefixCanFail(slotPrefix: Bytes)
    requires |slotPrefix| == MaxSlotPrefixLength + 1
    ensures Encode(TableSync((U64Bound - 1) as u64, (U32Bound - 1) as u32, slotPrefix)).Err?
  {
    LongestSuffix((U64Bound - 1) as u64, (U32Bound - 1) as u32, slotPrefix);
  }

  /** Once a pipeline's configuration validates, every slot identity of the pipeline encodes. */
  lemma ValidatedConfigEncodes<Conn, Batch>(
    config: PipelineConfig<Conn, Batch>, tlsValidate: Conn -> Result<(), ValidationError>, tableId: TableId)
    requires Validate(config, tlsValidate).Ok?
    ensures Encode(Apply(config.id, config.slotPrefix)).Ok?
    ensures Encode(TableSync(config.id, tableId, config.slotPrefix)).Ok?
    ensures ApplyPrefix(config.id, config.slotPrefix).Ok? && TableSyncPrefix(config.id, config.slotPrefix).Ok?
  {
    ShortPrefixAlwaysEncodes(config.id, tableId, config.slotPrefix);
  }

  /**
   * With a prefix that passes the length check, the deletion skips no slot: it
   * collects the apply slot's name and then the name of every table's slot, in
   * order.
   */
  lemma CleanupSkipsNothing(pipelineId: u64, tableIds: seq<TableId>, slotPrefix: Bytes)
    requires |slotPrefix| <= MaxSlotPrefixLength
    ensures var names := PipelineSlotNames(pipelineId, tableIds, slotPrefix);
      && |names| == |tableIds| + 1
      && names[0] == SlotName(Apply(pipelineId, slotPrefix))
      && forall i | 0 <= i < |tableIds| :: names[i + 1] == SlotName(TableSync(pipelineId, tableIds[i], slotPrefix))
  {
    var encode := SyncSlotName(pipelineId, slotPrefix);
    forall t | t in tableIds
      ensures encode(t).Ok?
    {
      ShortPrefixAlwaysEncodes(pipelineId, t, slotPrefix);
    }
    EncodedNamesComplete(tableIds, encode);
    ShortPrefixAlwaysEncodes(pipelineId, 0, slotPrefix);
    var apply := NameIfOk(Encode(Apply(pipelineId, slotPrefix)));
    var sync := EncodedNames(tableIds, encode);
    assert apply == [SlotName(Apply(pipelineId, slotPrefix))];
    var names := apply + sync;
    assert forall i | 0 <= i < |tableIds| :: names[i + 1] == sync[i];
  }
}
