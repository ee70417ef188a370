# etl replication-slot identities, in Dafny

A Dafny model of how the etl replication pipeline names its Postgres logical
replication slots. It covers these parts:

- **The slot identity codec** (`etl-postgres/src/replication/slots.rs`). An
  `EtlReplicationSlot` is one of two things:
  - the apply worker's slot of a pipeline, named `{prefix}_apply_{pipeline_id}`;
  - one table-sync worker's slot, named `{prefix}_table_sync_{pipeline_id}_{table_id}`.

  The encoder refuses names longer than Postgres's 63-byte limit. The decoder
  recovers an identity from a name. Two helpers build the name prefixes shared
  by a pipeline's slots. The slot-deletion routine collects the names of all of
  a pipeline's slots.
- **Pipeline configuration validation** (`etl-config/src/shared/pipeline.rs`).
  It gates the slot prefix: the prefix must be non-empty and at most 20 bytes.
  The same file has the conversion of the configuration into its secret-free
  form.
- **The worker-role mapping** (`etl-postgres/src/replication/worker.rs`). It
  gives every worker its slot identity.

## How it is modelled

Modules, one per concern:

- `Wrappers`: `Option` and `Result`.
- `Primitives`: bytes, the unsigned integer types, and byte strings from text.
- `Text`: the string operations the codec relies on, as byte-string functions:
  - `str::find` is `Find`;
  - `rsplitn(2, '_')` is `RSplitOnce`;
  - decimal formatting is `Decimal`;
  - `str::parse` for unsigned types is `ParseUnsigned`.
- `Slots`: the codec.
- `SlotProperties`: the codec's round trips, and how the prefix helpers relate to full names.
- `SlotCleanup`: the deletion routine.
- `Worker`: the worker-role mapping.
- `Pipeline`: validation and the secret-free form.
- `Guarantees`: what validation guarantees the codec.
- `SlotExamples`: the identities and names the source's unit tests use.

Slot names are byte sequences: `len()` and `find` in the source count and
search bytes. Pipeline ids are `u64` values (`0 <= n < 2^64`) and table ids are
`u32` values.

A slot identity is the datatype `Slots.EtlReplicationSlot`. Its two
constructors, `Apply` and `TableSync`, are the source's `for_apply_worker` and
`for_table_sync_worker` (slots.rs lines 48-66), which only store their
arguments.

The source defines `DEFAULT_SLOT_PREFIX` twice: in slots.rs line 13 and in
pipeline.rs line 8. Both are `"supabase_etl"`. The model has one constant,
`Pipeline.DefaultSlotPrefix`, which stands for both.

`ParseUnsigned` follows Rust's grammar for unsigned integers:
- one optional leading `+`, then one or more ASCII digits;
- leading zeros are allowed;
- values that do not fit the type are rejected.

Its contract says that only text of this shape is accepted. `Text.ParseNumeral`
says that every such text below the bound is accepted, with its value.

The codec is pure and is written as functions. The name-collection loop of
`delete_pipeline_replication_slots` builds a vector by `push`. It is the method
`SlotCleanup.CollectSlotNames` with a loop invariant, proved against the
specification function `PipelineSlotNames`. Postgres's part of the deletion,
`pg_drop_replication_slot` on every inactive slot carrying one of those names,
is a filter over a list of catalog rows.

Where the model differs from a plain reading of the comments:

- **The prefix helpers.** `apply_prefix` and `table_sync_prefix` refuse a result of 63 bytes or more (`>=`, slots.rs lines 75 and 89). The encoder refuses only more than 63 (`>`, line 174). The model keeps both bounds.
  - For `table_sync_prefix` this is exact: it fails precisely when no table-sync name of that pipeline fits (`TableSyncPrefixFailsIffNoNameFits`).
  - `apply_prefix` is one byte stricter than the encoder. A 63-byte apply name is encodable, but its `apply_prefix` is refused (`ApplyPrefixOneByteStricter`).
- **The longest suffix.** The comment on `MAX_SLOT_PREFIX_LENGTH` (pipeline.rs lines 11-12) gives the longest suffix as 40 characters. It is 43 bytes: `_table_sync_` (12), 20 digits, `_`, then 10 digits. The limit of 20 is still right, and exactly tight: 20 + 43 = 63 (`LongestSuffix`, `LongerPrefixCanFail`).
- **Which slots are dropped.** The comment before the deletion query says "Delete only active slots". The query itself drops slots with `active = false`, and the model follows the query.
- **The first `ok_or_else` in the table-sync branch** (slots.rs lines 124-126) can never fire. `rsplitn` always yields at least one part. In `DecodeTableSync` only a missing second part leads to an error.

## Model

| member | source | states |
|---|---|---|
| Slots.Encode | etl-postgres/src/replication/slots.rs:151-180 | Encoding succeeds exactly when the formatted name is at most 63 bytes. It then returns that name; otherwise it fails with `InvalidSlotNameLength` carrying the untruncated name. |
| Slots.ApplyPrefix | etl-postgres/src/replication/slots.rs:69-80 | `apply_prefix` is `prefix ++ "_apply_" ++ decimal(pipeline_id)`. It fails with `InvalidSlotNameLength` exactly when that is 63 bytes or longer. |
| Slots.TableSyncPrefix | etl-postgres/src/replication/slots.rs:83-94 | `table_sync_prefix` is `prefix ++ "_table_sync_" ++ decimal(pipeline_id) ++ "_"`. It fails exactly when that is 63 bytes or longer. |
| Slots.SlotName | etl-postgres/src/replication/slots.rs:155-172 | A slot's name starts with its prefix, followed by the role's delimiter. In an apply name, the rest is the pipeline id's canonical decimal numeral, and its value is the pipeline id. |
| SlotProperties.TableSyncNameNumerals | etl-postgres/src/replication/slots.rs:162-171 | In a table-sync name, splitting the text after `"_table_sync_"` at its last `'_'` gives two canonical decimal numerals. Their values are the table id (part 0) and the pipeline id (part 1). |
| Slots.Decode | etl-postgres/src/replication/slots.rs:97-149 | Every failure is `InvalidSlotName(name)`. A decoded prefix is a prefix of the name. An apply identity's prefix ends at the first `"_apply_"`, and its pipeline id is what `parse` reads from the rest. A table-sync identity comes only from a name without `"_apply_"`. Its prefix ends at the first `"_table_sync_"`, and its two ids are what `parse` reads from the two sides of the rest's last `'_'`. A name with neither delimiter is rejected. For every name: when `"_apply_"` occurs, decoding succeeds exactly when the text after its first occurrence parses as a u64. Otherwise, when `"_table_sync_"` occurs, decoding succeeds exactly when the text after its first occurrence splits at its last `'_'` into a u64 part and a u32 part. |
| Slots.DecodeApply | etl-postgres/src/replication/slots.rs:101-115 | With `"_apply_"` at `pos`, decoding succeeds exactly when the rest parses as a u64. It then gives the apply identity of that value, whose prefix is everything before `pos`; otherwise it gives `InvalidSlotName`. There is no fallback to the table-sync shape. |
| Slots.DecodeTableSync | etl-postgres/src/replication/slots.rs:117-145 | With `"_table_sync_"` at `pos`, decoding succeeds exactly when the rest holds a `'_'`, the text before its last `'_'` parses as a u64 and the text after it as a u32. It then gives the table-sync identity of those values, whose prefix is everything before `pos`. |
| Slots.DelimitersSpellRoleWords | etl-postgres/src/replication/slots.rs:15-18 | The delimiters are `"apply"` and `"table_sync"` wrapped in `'_'`. |
| Text.Find | etl-postgres/src/replication/slots.rs:103 | `find` returns the first position at which the pattern occurs, and nothing exactly when it occurs nowhere. |
| Text.RSplitOnce | etl-postgres/src/replication/slots.rs:123-129 | `rsplitn(2, '_')` gives one part exactly when there is no `'_'`, and then the whole string. Otherwise it gives the text after the last `'_'` and the text before it, which together with the `'_'` make up the string. |
| Text.Decimal | etl-postgres/src/replication/slots.rs:160 | `{}` formatting of an id gives a canonical decimal numeral: one or more digits, with no leading zero unless the value is 0. `ParseDecimal` and `DecimalOfDigitsValue` make it the inverse of parsing. |
| Text.ParseUnsigned | etl-postgres/src/replication/slots.rs:131-138 | A parsed value is below the type's bound. The text is digits, possibly after one leading `'+'` that is followed by at least one digit. |
| Text.ParseNumeral | etl-postgres/src/replication/slots.rs:131-138 | Every run of digits, with or without one leading `'+'` and leading zeros included, parses to its value when that is below the bound. Otherwise it is refused. |
| Text.ParseDecimal | etl-postgres/src/replication/slots.rs:106-107 | Parsing the decimal form of any value of the type gives that value back. |
| Text.DecimalOfDigitsValue | etl-postgres/src/replication/slots.rs:131-134 | A numeral without a superfluous leading zero is the decimal form of the value it parses to. |
| Text.DecimalLengthAtMost | etl-config/src/shared/pipeline.rs:10-13 | A number below 10^k has at most k decimal digits. |
| SlotProperties.DecodeApplyShape | etl-postgres/src/replication/slots.rs:101-115 | For every prefix without `"_apply"` and every remainder, `prefix ++ "_apply_" ++ rest` decodes to the apply identity of rest's u64 value on that prefix. When rest does not parse, it decodes to `InvalidSlotName`. |
| SlotProperties.DecodeTableSyncShape | etl-postgres/src/replication/slots.rs:117-145 | Take a prefix without `"_table_sync"`, any `a`, and a `b` without `'_'`, such that `prefix ++ "_table_sync_" ++ a ++ "_" ++ b` holds no `"_apply_"`. That name decodes to the table-sync identity of (a as u64, b as u32) on the prefix. It gives `InvalidSlotName` when either part fails to parse. |
| SlotProperties.DecodeTableSyncWithoutSeparator | etl-postgres/src/replication/slots.rs:123-129 | A table-sync-shaped name whose text after `"_table_sync_"` has no `'_'` is refused with `InvalidSlotName`. |
| SlotProperties.DecodeApplyName | etl-postgres/src/replication/slots.rs:101-115 | Decoding any apply name whose prefix has no `"_apply"` gives the identity back. |
| SlotProperties.DecodeTableSyncName | etl-postgres/src/replication/slots.rs:117-145 | Decoding any table-sync name whose prefix has neither `"_apply"` nor `"_table_sync"` gives the identity back. This includes ids 0 and the largest ids. |
| SlotProperties.RoundTrip | etl-postgres/src/replication/slots.rs:97-180 | When a slot encodes and its prefix contains neither `"_apply"` nor `"_table_sync"`, decoding its name returns exactly that slot. |
| SlotProperties.FormatDecoded | etl-postgres/src/replication/slots.rs:391-402 | Take a decodable name whose numerals after the first delimiter are canonical, with no `'+'` and no leading zero; the prefix may hold anything. Formatted again, it is the same name. The encoder accepts it exactly when it is at most 63 bytes. |
| SlotProperties.NonCanonicalNamesAreNotReproduced | etl-postgres/src/replication/slots.rs:106-109 | `"x_apply_01"` and `"x_apply_+1"` both decode to pipeline 1 on prefix `"x"`, which encodes as `"x_apply_1"`. So decode-then-encode is not the identity. |
| SlotProperties.RoundTripNeedsApplyFreePrefix | etl-postgres/src/replication/slots.rs:103-109 | With prefix `"a_apply"`, the name `"a_apply_apply_5"` encodes but does not decode. |
| SlotProperties.DecodeRejectsNamesWithoutDigits | etl-postgres/src/replication/slots.rs:97-149 | A name without a digit is rejected with `InvalidSlotName(name)`. |
| SlotProperties.DecodeRejectsTestNames | etl-postgres/src/replication/slots.rs:384-388 | `"unknown_slot"`, `"supabase_etl_apply_"` and `"supabase_etl_table_sync_abc"` are rejected. |
| SlotProperties.ApplyPrefixIsApplyName | etl-postgres/src/replication/slots.rs:69-80 | A successful `apply_prefix` equals the encoded apply name of the same pipeline and prefix. |
| SlotProperties.ApplyPrefixOneByteStricter | etl-postgres/src/replication/slots.rs:75 | `apply_prefix` and the encoder disagree exactly on 63-byte apply names. Whenever the helper succeeds, so does the encoder. |
| SlotProperties.TableSyncPrefixStartsEveryName | etl-postgres/src/replication/slots.rs:87 | A successful `table_sync_prefix` is a prefix of the table-sync name of every table of that pipeline. |
| SlotProperties.TableSyncPrefixFailsIffNoNameFits | etl-postgres/src/replication/slots.rs:89 | `table_sync_prefix` fails exactly when the table-sync slot of no table id can be encoded. |
| SlotCleanup.CollectSlotNames | etl-postgres/src/replication/slots.rs:195-210 | The loop collects the apply name first, when it encodes, and then each table's name in input order, skipping those that fail to encode. There are at most `|table_ids| + 1` names, each at most 63 bytes. |
| SlotCleanup.EncodedNamesMembers | etl-postgres/src/replication/slots.rs:204-209 | A name is collected exactly when some input encodes to it. There is at most one name per input. |
| SlotCleanup.EncodedNamesComplete | etl-postgres/src/replication/slots.rs:204-209 | When every input encodes, the i-th name is the i-th input's name. |
| SlotCleanup.PipelineSlotNamesMembers | etl-postgres/src/replication/slots.rs:195-210 | A name is scheduled exactly when it is the pipeline's encoded apply name or the encoded table-sync name of one of its tables. The apply name comes first. |
| SlotCleanup.SlotNamesBounded | etl-postgres/src/replication/slots.rs:195 | At most `|table_ids| + 1` names, each at most 63 bytes. |
| SlotCleanup.DropInactiveSlots | etl-postgres/src/replication/slots.rs:212-219 | After the drop, a catalog row remains exactly when it is active or its name is not among the collected names. |
| SlotCleanup.DropInactiveSlotsIdempotent | etl-postgres/src/replication/slots.rs:212-219 | Dropping a second time with the same names changes nothing. |
| SlotCleanup.DropInactiveSlotsNothingSelected | etl-postgres/src/replication/slots.rs:212-219 | When no row is inactive and named, the catalog is left as it was. |
| SlotCleanup.DeletePipelineReplicationSlots | etl-postgres/src/replication/slots.rs:188-223 | No active slot is dropped. A slot is dropped exactly when it is inactive and carries the encoded name of one of the pipeline's slots. |
| Worker.BuildEtlReplicationSlot | etl-postgres/src/replication/worker.rs:14-30 | Every worker gets a slot identity, with the given pipeline id and prefix. The apply worker gets an apply slot; a table-sync worker gets a table-sync slot for its own table. |
| Worker.BuildIsInjective | etl-postgres/src/replication/worker.rs:20-30 | Building and reading back the role are inverses. A slot is built exactly from its own role, pipeline id and prefix. |
| Worker.ApplyWorkerSlotName | etl-postgres/src/replication/worker.rs:21-24 | The apply worker's slot is named `prefix ++ "_apply_" ++ decimal(pipeline_id)` whenever that fits into 63 bytes. |
| Worker.TableSyncWorkerSlotName | etl-postgres/src/replication/worker.rs:25-29 | A table-sync worker's slot is named `prefix ++ "_table_sync_" ++ decimal(pipeline_id) ++ "_" ++ decimal(table_id)`. |
| Worker.WorkerFromSlotName | etl-postgres/src/replication/worker.rs:14-30 | Decoding a worker's slot name gives back its role, pipeline id and prefix, when the prefix holds neither delimiter stem. |
| Pipeline.DefaultSlotPrefixValue | etl-config/src/shared/pipeline.rs:15-17 | The default prefix is 12 bytes, within the prefix checks. |
| Pipeline.Validate | etl-config/src/shared/pipeline.rs:57-80 | Validation succeeds exactly when TLS validates, workers ≠ 0, attempts ≠ 0 and the prefix is 1 to 20 bytes long. A TLS error is passed on unchanged. |
| Pipeline.ValidateReportsFirstFailure | etl-config/src/shared/pipeline.rs:58-77 | The reported error is the first failing check, in the order TLS, workers, retry attempts, empty prefix, long prefix. `SlotPrefixTooLong` carries 20 and the prefix's length. |
| Pipeline.ZeroWorkersReportedBeforeEmptyPrefix | etl-config/src/shared/pipeline.rs:60-70 | Zero workers together with an empty prefix yields `MaxTableSyncWorkersZero`. |
| Pipeline.SlotPrefixLengthBoundary | etl-config/src/shared/pipeline.rs:72-77 | A 20-byte prefix is accepted; a 21-byte one is refused with `SlotPrefixTooLong(20, 21)`. |
| Pipeline.DefaultSlotPrefixIsValid | etl-config/src/shared/pipeline.rs:8 | A configuration with the default prefix passes both prefix checks. |
| Pipeline.WithoutSecrets | etl-config/src/shared/pipeline.rs:111-123 | The conversion keeps these fields unchanged: id, publication name, batch, retry delay, retry attempts, worker limit and slot prefix. Only the connection is converted. |
| Pipeline.WithoutSecretsForgetsOnlySecrets | etl-config/src/shared/pipeline.rs:111-123 | Two configurations whose connections convert alike have the same secret-free form. |
| Guarantees.PipelineIdDigits | etl-postgres/src/replication/slots.rs:160 | A pipeline id has at most 20 digits, and the largest has exactly 20. |
| Guarantees.TableIdDigits | etl-postgres/src/replication/slots.rs:168 | A table id has at most 10 digits, and the largest has exactly 10. |
| Guarantees.LongestSuffix | etl-config/src/shared/pipeline.rs:10-13 | A table-sync suffix is at most 43 bytes, and the largest ids reach 43. An apply suffix is at most 27 bytes. 20 + 43 = 63. |
| Guarantees.ShortPrefixAlwaysEncodes | etl-config/src/shared/pipeline.rs:68-77 | With a prefix of at most 20 bytes, every apply and table-sync identity encodes and both prefix helpers succeed. |
| Guarantees.LongerPrefixCanFail | etl-config/src/shared/pipeline.rs:13 | With a 21-byte prefix, the largest table-sync identity no longer encodes. |
| Guarantees.ValidatedConfigEncodes | etl-config/src/shared/pipeline.rs:57-80 | Once a configuration validates, every slot identity of its pipeline encodes and both prefix helpers succeed. |
| Guarantees.CleanupSkipsNothing | etl-postgres/src/replication/slots.rs:187 | With a valid prefix, deletion collects the apply name and every table's name, in order. |
| SlotExamples.CustomTableSyncName | etl-postgres/src/replication/slots.rs:271-281 | Pipeline 1 and table 123 on prefix `"custom"` encode as `"custom_table_sync_1_123"`. |
| SlotExamples.CustomTableSyncDecodes | etl-postgres/src/replication/slots.rs:371-381 | `"custom_table_sync_7_12345"` decodes to pipeline 7, table 12345, prefix `"custom"`. |
| SlotExamples.MyPrefixApplyRoundTrip | etl-postgres/src/replication/slots.rs:391-396 | `"myprefix_apply_123"` decodes and encodes back to itself. |
| SlotExamples.MyPrefixTableSyncRoundTrip | etl-postgres/src/replication/slots.rs:397-401 | `"myprefix_table_sync_456_789"` decodes and encodes back to itself. |
| SlotExamples.MyAppPrefixes | etl-postgres/src/replication/slots.rs:316-331 | The helpers give `"myapp_apply_42"` and `"myapp_table_sync_42_"`. |
| SlotExamples.DefaultPrefixNames | etl-postgres/src/replication/slots.rs:230-268 | With the default prefix, pipeline 1's slots are `"supabase_etl_apply_1"` and `"supabase_etl_table_sync_1_123"`. |
| SlotExamples.DefaultPrefixHelpers | etl-postgres/src/replication/slots.rs:309-325 | With the default prefix, the helpers give `"supabase_etl_apply_42"` and `"supabase_etl_table_sync_42_"`. |
| SlotExamples.DefaultSlotPrefixHasNoRoleWord | etl-postgres/src/replication/slots.rs:13 | `"supabase_etl"` contains neither `"_apply"` nor `"_table_sync"`, so every name built on it decodes back. |
| SlotExamples.DefaultPrefixApplyNameDecodes | etl-postgres/src/replication/slots.rs:333-343 | `"supabase_etl_apply_13"` decodes to pipeline 13 on the default prefix. |
| SlotExamples.DefaultPrefixTableSyncNameDecodes | etl-postgres/src/replication/slots.rs:357-368 | `"supabase_etl_table_sync_7_12345"` decodes to pipeline 7, table 12345 on the default prefix. |
| SlotExamples.MyAppProdApplyNames | etl-postgres/src/replication/slots.rs:242-252 | Pipeline 1 on `"myapp_prod"` is named `"myapp_prod_apply_1"`. `"myapp_prod_apply_42"` decodes to pipeline 42 on that prefix. |
| SlotExamples.PrefixWithApplyStemDecodes | etl-postgres/src/replication/slots.rs:97-113 | `"x_applyz_apply_5"` decodes to pipeline 5 on prefix `"x_applyz"`: the split is at the first `"_apply_"`, not at the first `"_apply"`. |
| SlotExamples.LeadingZeroInPrefixIsReproduced | etl-postgres/src/replication/slots.rs:391-396 | `"tenant_01_apply_5"` decodes to pipeline 5 on prefix `"tenant_01"`, meets the canonical-numeral condition and formats back to itself. |
| SlotExamples.LargestIdsOnDefaultPrefix | etl-postgres/src/replication/slots.rs:283-307 | Pipeline 2^63 − 1 and table 2^32 − 1 on the default prefix encode as `"supabase_etl_table_sync_9223372036854775807_4294967295"`. |

## Left out

- Running the deletion query: `sqlx`, the connection pool, `async`, and the database errors the query can return. The catalog is a list of rows with only a name and an `active` flag. Dropping is modelled as removing every selected row at once.
- TLS validation (`self.pg_connection.tls.validate()`) is foreign code. It is the function parameter `tlsValidate`. Its own error cases are not part of this model; `ValidationError.TlsConfig` stands for them.
- The conversion of the connection settings (`pg_connection.into()`) and `BatchConfig` belong to types that are not part of this model. They are the type parameters `Conn`, `ConnWithoutSecrets` and `Batch`, and the function parameter `stripSecrets`.
- Serde: deserialisation, serialisation and `#[serde(default)]`. `default_slot_prefix` is modelled only as the value it returns.
- `Cow<'static, str>` ownership: prefixes are plain byte sequences.
- The `Display` texts of the error types.
- UTF-8: byte slicing that would split a character. Names are bytes throughout, and the source's slicing happens only at ASCII delimiters.
- The wider pipeline: the workers that use the slots, and other configuration fields that do not affect slot names.
- `SlotProperties.FormatDecoded`: decode-then-encode is the identity only for names whose id numerals, after the first delimiter, are canonical. Canonical means no `+` and no leading zero; the prefix is unconstrained. The source promises nothing about other names, and `NonCanonicalNamesAreNotReproduced` shows it fails on them.
