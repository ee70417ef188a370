/**
 * The pipeline configuration, as far as it gates the slot prefix that every
 * replication-slot name of the pipeline starts with.
 */
module Pipeline {
  import opened Wrappers
  import opened Primitives

  /** The slot prefix a configuration gets when it names none. */
  const DefaultSlotPrefix: Bytes := Ascii("supabase_etl")

  /** The longest slot prefix a configuration may name, in bytes. */
  const MaxSlotPrefixLength: nat := 20

  /** `default_slot_prefix`, what deserialisation fills in for a missing `slot_prefix`. */
  function DefaultSlotPrefixValue(): (r: Bytes)
    ensures |r| == 12
    ensures 1 <= |r| <= MaxSlotPrefixLength
  {
    DefaultSlotPrefix
  }

  /**
   * The ways validation can fail besides the TLS settings, whose own errors
   * reach `validate` unchanged.
   */
  datatype ValidationError =
    | TlsConfig(detail: Bytes)
    | MaxTableSyncWorkersZero
    | TableErrorRetryMaxAttemptsZero
    | SlotPrefixEmpty
    | SlotPrefixTooLong(maxLength: nat, actualLength: nat)

  /**
   * A pipeline's configuration. The connection settings and the batching
   * settings are not modelled and are kept as values of the types `Conn` and
   * `Batch`.
   */
  datatype PipelineConfig<Conn, Batch> = PipelineConfig(
    id: u64,
    publicationName: Bytes,
    pgConnection: Conn,
    batch: Batch,
    tableErrorRetryDelayMs: u64,
    tableErrorRetryMaxAttempts: u32,
    maxTableSyncWorkers: u16,
    slotPrefix: Bytes)

  /** The same configuration with the connection's secrets removed, safe to serialise. */
  datatype PipelineConfigWithoutSecrets<ConnWithoutSecrets, Batch> = PipelineConfigWithoutSecrets(
    id: u64,
    publicationName: Bytes,
    pgConnection: ConnWithoutSecrets,
    batch: Batch,
    tableErrorRetryDelayMs: u64,
    tableErrorRetryMaxAttempts: u32,
    maxTableSyncWorkers: u16,
    slotPrefix: Bytes)

  /** The slot-prefix checks `validate` makes: non-empty and at most `MaxSlotPrefixLength` bytes. */
  predicate ValidSlotPrefix(slotPrefix: Bytes) {
    1 <= |slotPrefix| <= MaxSlotPrefixLength
  }

  /**
   * `PipelineConfig::validate`. `tlsValidate` stands for the validation of the
   * connection's TLS settings. The checks run in order, and the first that
   * fails decides the error: TLS, the table-sync worker limit, the retry
   * limit, an empty prefix, a prefix that is too long.
   */
  function Validate<Conn, Batch>(config: PipelineConfig<Conn, Batch>, tlsValidate: Conn -> Result<(), ValidationError>)
    : (r: Result<(), ValidationError>)
    ensures r.Ok? <==>
      && tlsValidate(config.pgConnection).Ok?
      && config.maxTableSyncWorkers != 0
      && config.tableErrorRetryMaxAttempts != 0
      && ValidSlotPrefix(config.slotPrefix)
    ensures tlsValidate(config.pgConnection).Err? ==> r == Err(tlsValidate(config.pgConnection).error)
    ensures r.Ok? ==> ValidSlotPrefix(config.slotPrefix)
  {
    var tls := tlsValidate(config.pgConnection);
    if tls.Err? then Err(tls.error)
    else if config.maxTableSyncWorkers == 0 then Err(MaxTableSyncWorkersZero)
    else if config.tableErrorRetryMaxAttempts == 0 then Err(TableErrorRetryMaxAttemptsZero)
    else if |config.slotPrefix| == 0 then Err(SlotPrefixEmpty)
    else if |config.slotPrefix| > MaxSlotPrefixLength then
      Err(SlotPrefixTooLong(MaxSlotPrefixLength, |config.slotPrefix|))
    else Ok(())
  }

  /**
   * The error `validate` reports is that of the first failing check: every
   * check before it passed, and its own condition failed.
   */
  lemma ValidateReportsFirstFailure<Conn, Batch>(config: PipelineConfig<Conn, Batch>, tlsValidate: Conn -> Result<(), ValidationError>)
    ensures var r := Validate(config, tlsValidate);
      var tlsOk := tlsValidate(config.pgConnection).Ok?;
      && (tlsOk && config.maxTableSyncWorkers == 0 ==> r == Err(MaxTableSyncWorkersZero))
      && (tlsOk && config.maxTableSyncWorkers != 0 && config.tableErrorRetryMaxAttempts == 0
          ==> r == Err(TableErrorRetryMaxAttemptsZero))
      && (tlsOk && config.maxTableSyncWorkers != 0 && config.tableErrorRetryMaxAttempts != 0 && |config.slotPrefix| == 0
          ==> r == Err(SlotPrefixEmpty))
      && (tlsOk && config.maxTableSyncWorkers != 0 && config.tableErrorRetryMaxAttempts != 0
          && |config.slotPrefix| > MaxSlotPrefixLength
          ==> r == Err(SlotPrefixTooLong(20, |config.slotPrefix|)))
  {
  }

  /**
   * A prefix check only decides the result when every earlier check passed:
   * with no table-sync workers allowed, an empty prefix is not what is reported.
   */
  lemma ZeroWorkersReportedBeforeEmptyPrefix<Conn, Batch>(config: PipelineConfig<Conn, Batch>, tlsValidate: Conn -> Result<(), ValidationError>)
    requires tlsValidate(config.pgConnection).Ok?
    requires config.maxTableSyncWorkers == 0 && config.slotPrefix == []
    ensures Validate(config, tlsValidate) == Err(MaxTableSyncWorkersZero)
  {
  }

  /** A prefix of 20 bytes is accepted and one of 21 bytes is refused, naming both lengths. */
  lemma SlotPrefixLengthBoundary<Conn, Batch>(config: PipelineConfig<Conn, Batch>, tlsValidate: Conn -> Result<(), ValidationError>)
    requires tlsValidate(config.pgConnection).Ok?
    requires config.maxTableSyncWorkers != 0 && config.tableErrorRetryMaxAttempts != 0
    ensures |config.slotPrefix| == 20 ==> Validate(config, tlsValidate) == Ok(())
    ensures |config.slotPrefix| == 21 ==> Validate(config, tlsValidate) == Err(SlotPrefixTooLong(20, 21))
  {
  }

  /** The default prefix, "supabase_etl", passes both prefix checks. */
  lemma DefaultSlotPrefixIsValid<Conn, Batch>(config: PipelineConfig<Conn, Batch>, tlsValidate: Conn -> Result<(), ValidationError>)
    requires config.slotPrefix == DefaultSlotPrefixValue()
    requires tlsValidate(config.pgConnection).Ok?
    requires config.maxTableSyncWorkers != 0 && config.tableErrorRetryMaxAttempts != 0
    ensures Validate(config, tlsValidate) == Ok(())
  {
  }

  /**
   * `PipelineConfigWithoutSecrets::from`: every field is carried over as it is,
   * except the connection settings, which `stripSecrets` converts.
   */
  function WithoutSecrets<Conn, ConnWithoutSecrets, Batch>(config: PipelineConfig<Conn, Batch>, stripSecrets: Conn -> ConnWithoutSecrets)
    : (r: PipelineConfigWithoutSecrets<ConnWithoutSecrets, Batch>)
    ensures r.id == config.id && r.publicationName == config.publicationName && r.batch == config.batch
    ensures r.tableErrorRetryDelayMs == config.tableErrorRetryDelayMs
    ensures r.tableErrorRetryMaxAttempts == config.tableErrorRetryMaxAttempts
    ensures r.maxTableSyncWorkers == config.maxTableSyncWorkers
    ensures r.slotPrefix == config.slotPrefix
    ensures r.pgConnection == stripSecrets(config.pgConnection)
  {
    PipelineConfigWithoutSecrets(
      config.id,
      config.publicationName,
      stripSecrets(config.pgConnection),
      config.batch,
      config.tableErrorRetryDelayMs,
      config.tableErrorRetryMaxAttempts,
      config.maxTableSyncWorkers,
      config.slotPrefix)
  }

  /** Two configurations that differ only in their secrets have the same form without secrets. */
  lemma WithoutSecretsForgetsOnlySecrets<Conn, ConnWithoutSecrets, Batch>(
    a: PipelineConfig<Conn, Batch>, b: PipelineConfig<Conn, Batch>, stripSecrets: Conn -> ConnWithoutSecrets)
    requires a.(pgConnection := b.pgConnection) == b
    requires stripSecrets(a.pgConnection) == stripSecrets(b.pgConnection)
    ensures WithoutSecrets(a, stripSecrets) == WithoutSecrets(b, stripSecrets)
  {
  }
}
