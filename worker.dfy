/** The roles a replication worker plays, and the slot identity each role uses. */
module Worker {
  import opened Primitives
  import opened Text
  import opened Slots
  import SlotProperties

  /** The workers of a replication task: one apply worker, and one table-sync worker per table. */
  datatype WorkerType =
    | ApplyWorker
    | TableSyncWorker(tableId: TableId)

  /**
   * `build_etl_replication_slot`: the slot identity of a worker of a pipeline.
   * Every worker gets one; the role decides the variant and the table-sync
   * worker's table becomes the slot's table.
   */
  function BuildEtlReplicationSlot(worker: WorkerType, pipelineId: u64, slotPrefix: Bytes): (slot: EtlReplicationSlot)
    ensures slot.pipelineId == pipelineId && slot.prefix == slotPrefix
    ensures slot.Apply? <==> worker.ApplyWorker?
    ensures worker.TableSyncWorker? ==> slot.TableSync? && slot.tableId == worker.tableId
  {
    match worker
    case ApplyWorker => Apply(pipelineId, slotPrefix)
    case TableSyncWorker(tableId) => TableSync(pipelineId, tableId, slotPrefix)
  }

  /** The role a slot identity belongs to. */
  function WorkerOf(slot: EtlReplicationSlot): WorkerType {
    match slot
    case Apply(_, _) => ApplyWorker
    case TableSync(_, tableId, _) => TableSyncWorker(tableId)
  }

  /**
   * Every slot identity is the one exactly one worker builds: building and
   * reading back the role are inverse to each other.
   */
  lemma BuildIsInjective(worker: WorkerType, pipelineId: u64, slotPrefix: Bytes, slot: EtlReplicationSlot)
    ensures WorkerOf(BuildEtlReplicationSlot(worker, pipelineId, slotPrefix)) == worker
    ensures BuildEtlReplicationSlot(WorkerOf(slot), slot.pipelineId, slot.prefix) == slot
    ensures BuildEtlReplicationSlot(worker, pipelineId, slotPrefix) == slot
      <==> worker == WorkerOf(slot) && pipelineId == slot.pipelineId && slotPrefix == slot.prefix
  {
  }

  /** The apply worker's slot is named by its prefix, "_apply_" and the pipeline id. */
  lemma ApplyWorkerSlotName(pipelineId: u64, slotPrefix: Bytes)
    ensures var r := Encode(BuildEtlReplicationSlot(ApplyWorker, pipelineId, slotPrefix));
      && (r.Ok? <==> |slotPrefix| + |ApplyPattern| + |Decimal(pipelineId as nat)| <= MaxSlotNameLength)
      && (r.Ok? ==> r.value == slotPrefix + ApplyPattern + Decimal(pipelineId as nat))
  {
  }

  /** A table-sync worker's slot is named by its prefix, "_table_sync_", the pipeline id and the table. */
  lemma TableSyncWorkerSlotName(tableId: TableId, pipelineId: u64, slotPrefix: Bytes)
    ensures var r := Encode(BuildEtlReplicationSlot(TableSyncWorker(tableId), pipelineId, slotPrefix));
      r.Ok? ==> r.value == slotPrefix + TableSyncPattern + Decimal(pipelineId as nat) + [Underscore] + Decimal(tableId as nat)
  {
  }

  /**
   * The name of a worker's slot identifies the worker and the pipeline: when it
   * encodes and the prefix is recoverable, decoding it gives back the role, the
   * pipeline id and the prefix.
   */
  lemma WorkerFromSlotName(worker: WorkerType, pipelineId: u64, slotPrefix: Bytes)
    requires Encode(BuildEtlReplicationSlot(worker, pipelineId, slotPrefix)).Ok?
    requires !Contains(slotPrefix, ApplyStem) && !Contains(slotPrefix, TableSyncStem)
    ensures var d := Decode(Encode(BuildEtlReplicationSlot(worker, pipelineId, slotPrefix)).value);
      && d.Ok?
      && WorkerOf(d.value) == worker && d.value.pipelineId == pipelineId && d.value.prefix == slotPrefix
  {
    SlotProperties.RoundTrip(BuildEtlReplicationSlot(worker, pipelineId, slotPrefix));
  }
}
