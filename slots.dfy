/**
 * The replication-slot identity codec: a slot identity is either the apply
 * worker's slot of a pipeline or the slot of one table-sync worker, and its
 * name in Postgres's catalog is derived from it by a fixed format.
 */
module Slots {
  import opened Wrappers
  import opened Primitives
  import opened Text

  /** Postgres refuses replication-slot names longer than this many bytes. */
  const MaxSlotNameLength: nat := 63

  /** "apply" and "table_sync", the role words inside slot names. */
  const ApplySuffix: Bytes := [97, 112, 112, 108, 121]
  const TableSyncSuffix: Bytes := [116, 97, 98, 108, 101, 95, 115, 121, 110, 99]

  /** `format!("_{APPLY_SUFFIX}_")`, that is "_apply_": the delimiter between prefix and pipeline id. */
  const ApplyPattern: Bytes := [95, 97, 112, 112, 108, 121, 95]
  /** `format!("_{TABLE_SYNC_SUFFIX}_")`, that is "_table_sync_". */
  const TableSyncPattern: Bytes := [95, 116, 97, 98, 108, 101, 95, 115, 121, 110, 99, 95]

  /**
   * "_apply" and "_table_sync": the delimiters without their closing '_'. A
   * prefix that contains neither can be recovered from the names built on it.
   */
  const ApplyStem: Bytes := [95, 97, 112, 112, 108, 121]
  const TableSyncStem: Bytes := [95, 116, 97, 98, 108, 101, 95, 115, 121, 110, 99]

  /** The delimiters are the role words wrapped in '_', as `format!("_{APPLY_SUFFIX}_")` builds them. */
  lemma DelimitersSpellRoleWords()
    ensures ApplyPattern == [Underscore] + ApplySuffix + [Underscore]
    ensures TableSyncPattern == [Underscore] + TableSyncSuffix + [Underscore]
    ensures ApplyStem == [Underscore] + ApplySuffix && TableSyncStem == [Underscore] + TableSyncSuffix
  {
  }

  /** A Postgres relation object identifier. */
  type TableId = u32

  datatype SlotError =
    | InvalidSlotNameLength(name: Bytes)
    | InvalidSlotName(name: Bytes)

  /**
   * The identity of a replication slot. `for_apply_worker` and
   * `for_table_sync_worker` are the two constructors.
   */
  datatype EtlReplicationSlot =
    | Apply(pipelineId: u64, prefix: Bytes)
    | TableSync(pipelineId: u64, tableId: TableId, prefix: Bytes)

  /**
   * The name `format!` builds for a slot, before the length check: the prefix,
   * then the role's delimiter, then the ids as canonical decimal numerals.
   */
  function SlotName(slot: EtlReplicationSlot): (name: Bytes)
    ensures |slot.prefix| <= |name| && name[..|slot.prefix|] == slot.prefix
    ensures slot.Apply? ==>
      OccursAt(name, ApplyPattern, |slot.prefix|) && IsCanonicalDecimal(name[|slot.prefix| + |ApplyPattern|..])
    ensures slot.Apply? ==> DigitsValue(name[|slot.prefix| + |ApplyPattern|..]) == slot.pipelineId as nat
    ensures slot.TableSync? ==> OccursAt(name, TableSyncPattern, |slot.prefix|)
  {
    match slot
    case Apply(pipelineId, prefix) =>
      var name := prefix + ApplyPattern + Decimal(pipelineId as nat);
      assert name[|prefix| + |ApplyPattern|..] == Decimal(pipelineId as nat);
      assert name[|prefix|..|prefix| + |ApplyPattern|] == ApplyPattern;
      DigitsValueOfDecimal(pipelineId as nat);
      name
    case TableSync(pipelineId, tableId, prefix) =>
      var name := prefix + TableSyncPattern + Decimal(pipelineId as nat) + [Underscore] + Decimal(tableId as nat);
      assert name[|prefix|..|prefix| + |TableSyncPattern|] == TableSyncPattern;
      name
  }

  /** `String::try_from(slot)`: the slot's name, refused when Postgres could not store it. */
  function Encode(slot: EtlReplicationSlot): (r: Result<Bytes, SlotError>)
    ensures r.Ok? <==> |SlotName(slot)| <= MaxSlotNameLength
    ensures r.Ok? ==> r.value == SlotName(slot)
    ensures r.Err? ==> r.error == InvalidSlotNameLength(SlotName(slot))
  {
    var slotName := SlotName(slot);
    if |slotName| > MaxSlotNameLength then Err(InvalidSlotNameLength(slotName)) else Ok(slotName)
  }

  /** `apply_prefix`: the start shared by the apply slot names of a pipeline. */
  function ApplyPrefix(pipelineId: u64, slotPrefix: Bytes): (r: Result<Bytes, SlotError>)
    ensures r.Ok? <==> |SlotName(Apply(pipelineId, slotPrefix))| < MaxSlotNameLength
    ensures r.Ok? ==> r.value == slotPrefix + ApplyPattern + Decimal(pipelineId as nat)
    ensures r.Err? ==> r.error == InvalidSlotNameLength(slotPrefix + ApplyPattern + Decimal(pipelineId as nat))
  {
    var prefix := slotPrefix + ApplyPattern + Decimal(pipelineId as nat);
    if |prefix| >= MaxSlotNameLength then Err(InvalidSlotNameLength(prefix)) else Ok(prefix)
  }

  /** `table_sync_prefix`: the start shared by the table-sync slot names of a pipeline. */
  function TableSyncPrefix(pipelineId: u64, slotPrefix: Bytes): (r: Result<Bytes, SlotError>)
    ensures r.Ok? <==> |slotPrefix| + |TableSyncPattern| + |Decimal(pipelineId as nat)| + 1 < MaxSlotNameLength
    ensures r.Ok? ==> r.value == slotPrefix + TableSyncPattern + Decimal(pipelineId as nat) + [Underscore]
    ensures r.Err? ==> r.error == InvalidSlotNameLength(slotPrefix + TableSyncPattern + Decimal(pipelineId as nat) + [Underscore])
  {
    var prefix := slotPrefix + TableSyncPattern + Decimal(pipelineId as nat) + [Underscore];
    if |prefix| >= MaxSlotNameLength then Err(InvalidSlotNameLength(prefix)) else Ok(prefix)
  }

  /**
   * `EtlReplicationSlot::try_from(&str)`: recover a slot identity from a name.
   * The apply delimiter is looked for first; only when it is absent anywhere in
   * the name is the table-sync shape tried. The prefix is everything before the
   * first occurrence of the delimiter, and the ids are what `parse` reads from
   * the rest.
   */
  function Decode(name: Bytes): (r: Result<EtlReplicationSlot, SlotError>)
    ensures r.Err? ==> r.error == InvalidSlotName(name)
    ensures r.Ok? ==> |r.value.prefix| <= |name| && name[..|r.value.prefix|] == r.value.prefix
    ensures r.Ok? && r.value.Apply? ==>
      && OccursAt(name, ApplyPattern, |r.value.prefix|)
      && (forall j: nat | j < |r.value.prefix| :: !OccursAt(name, ApplyPattern, j))
      && ParseUnsigned(name[|r.value.prefix| + |ApplyPattern|..], U64Bound) == Some(r.value.pipelineId as nat)
    ensures r.Ok? && r.value.TableSync? ==>
      && !Contains(name, ApplyPattern)
      && OccursAt(name, TableSyncPattern, |r.value.prefix|)
      && (forall j: nat | j < |r.value.prefix| :: !OccursAt(name, TableSyncPattern, j))
      && var parts := RSplitOnce(name[|r.value.prefix| + |TableSyncPattern|..], Underscore);
      && |parts| == 2
      && ParseUnsigned(parts[1], U64Bound) == Some(r.value.pipelineId as nat)
      && ParseUnsigned(parts[0], U32Bound) == Some(r.value.tableId as nat)
    ensures !Contains(name, ApplyPattern) && !Contains(name, TableSyncPattern) ==> r.Err?
    ensures Find(name, ApplyPattern).Some? ==>
      (r.Ok? <==> ParseUnsigned(name[Find(name, ApplyPattern).value + |ApplyPattern|..], U64Bound).Some?)
    ensures Find(name, ApplyPattern).None? && Find(name, TableSyncPattern).Some? ==>
      var parts := RSplitOnce(name[Find(name, TableSyncPattern).value + |TableSyncPattern|..], Underscore);
      (r.Ok? <==> |parts| == 2 && ParseUnsigned(parts[1], U64Bound).Some? && ParseUnsigned(parts[0], U32Bound).Some?)
  {
    var applyPos := Find(name, ApplyPattern);
    if applyPos.Some? then
      NoEarlierOccurrence(name, ApplyPattern, applyPos.value);
      DecodeApply(name, applyPos.value)
    else
      var syncPos := Find(name, TableSyncPattern);
      if syncPos.None? then Err(InvalidSlotName(name))
      else
        NoEarlierOccurrence(name, TableSyncPattern, syncPos.value);
        DecodeTableSync(name, syncPos.value)
  }

  /** The apply shape, with the first "_apply_" of `name` at `pos`. */
  function DecodeApply(name: Bytes, pos: nat): (r: Result<EtlReplicationSlot, SlotError>)
    requires pos + |ApplyPattern| <= |name|
    ensures r.Ok? <==> ParseUnsigned(name[pos + |ApplyPattern|..], U64Bound).Some?
    ensures r.Ok? ==>
      && r.value.Apply? && r.value.prefix == name[..pos]
      && ParseUnsigned(name[pos + |ApplyPattern|..], U64Bound) == Some(r.value.pipelineId as nat)
    ensures r.Err? ==> r.error == InvalidSlotName(name)
  {
    var pipelineId := ParseUnsigned(name[pos + |ApplyPattern|..], U64Bound);
    if pipelineId.None? then Err(InvalidSlotName(name))
    else Ok(Apply(pipelineId.value as u64, name[..pos]))
  }

  /** The table-sync shape, with the first "_table_sync_" of `name` at `pos`. */
  function DecodeTableSync(name: Bytes, pos: nat): (r: Result<EtlReplicationSlot, SlotError>)
    requires pos + |TableSyncPattern| <= |name|
    ensures var parts := RSplitOnce(name[pos + |TableSyncPattern|..], Underscore);
      r.Ok? <==> |parts| == 2 && ParseUnsigned(parts[1], U64Bound).Some? && ParseUnsigned(parts[0], U32Bound).Some?
    ensures var parts := RSplitOnce(name[pos + |TableSyncPattern|..], Underscore);
      r.Ok? ==>
        && r.value.TableSync? && r.value.prefix == name[..pos] && |parts| == 2
        && ParseUnsigned(parts[1], U64Bound) == Some(r.value.pipelineId as nat)
        && ParseUnsigned(parts[0], U32Bound) == Some(r.value.tableId as nat)
    ensures r.Err? ==> r.error == InvalidSlotName(name)
  {
    var rest := name[pos + |TableSyncPattern|..];
    // rsplitn always yields the table id part; only the pipeline id part can be missing
    var parts := RSplitOnce(rest, Underscore);
    var tableIdPart := parts[0];
    if |parts| < 2 then Err(InvalidSlotName(name))
    else
      var pipelineId := ParseUnsigned(parts[1], U64Bound);
      var tableOid := ParseUnsigned(tableIdPart, U32Bound);
      if pipelineId.None? || tableOid.None? then Err(InvalidSlotName(name))
      else Ok(TableSync(pipelineId.value as u64, tableOid.value as u32, name[..pos]))
  }

  /** Before the first occurrence of `pat` in `s`, the prefix of `s` holds no occurrence of it. */
  lemma NoEarlierOccurrence(s: Bytes, pat: Bytes, pos: nat)
    requires pos <= |s| && |pat| >= 1
    requires forall j: nat | j < pos :: !OccursAt(s, pat, j)
    ensures !Contains(s[..pos], pat)
  {
    forall j: nat | j <= pos
      ensures !OccursAt(s[..pos], pat, j)
    {
      if OccursAt(s[..pos], pat, j) {
        assert s[j..j + |pat|] == s[..pos][j..j + |pat|];
        assert OccursAt(s, pat, j);
      }
    }
  }
}
