/**
 * Deleting the replication slots of a pipeline: the names of the apply slot and
 * of one table-sync slot per table are collected, skipping any identity whose
 * name cannot be encoded, and Postgres then drops every inactive slot carrying
 * one of those names.
 */
module SlotCleanup {
  import opened Wrappers
  import opened Primitives
  import opened Slots

  /** The name an encoding produced, or nothing when it failed: what `if let Ok(..)` pushes. */
  function NameIfOk(r: Result<Bytes, SlotError>): (names: seq<Bytes>)
    ensures |names| <= 1
    ensures |names| == 1 <==> r.Ok?
    ensures r.Ok? ==> names == [r.value]
  {
    if r.Ok? then [r.value] else []
  }

  /** The encoded names of `items`, in order, leaving out every item whose encoding fails. */
  function EncodedNames<T>(items: seq<T>, encode: T -> Result<Bytes, SlotError>): seq<Bytes> {
    if |items| == 0 then []
    else EncodedNames(items[..|items| - 1], encode) + NameIfOk(encode(items[|items| - 1]))
  }

  /** How a table id is turned into a table-sync slot name of the pipeline. */
  function SyncSlotName(pipelineId: u64, slotPrefix: Bytes): TableId -> Result<Bytes, SlotError> {
    tableId => Encode(TableSync(pipelineId, tableId, slotPrefix))
  }

  /** The names `delete_pipeline_replication_slots` hands to Postgres. */
  function PipelineSlotNames(pipelineId: u64, tableIds: seq<TableId>, slotPrefix: Bytes): seq<Bytes> {
    NameIfOk(Encode(Apply(pipelineId, slotPrefix))) + EncodedNames(tableIds, SyncSlotName(pipelineId, slotPrefix))
  }

  /**
   * The name-collection loop of `delete_pipeline_replication_slots`: the apply
   * slot's name, then each table's slot name in the order of `tableIds`, each
   * pushed only when it encodes.
   */
  method CollectSlotNames(pipelineId: u64, tableIds: seq<TableId>, slotPrefix: Bytes) returns (names: seq<Bytes>)
    ensures names == PipelineSlotNames(pipelineId, tableIds, slotPrefix)
    ensures |names| <= |tableIds| + 1
    ensures forall i | 0 <= i < |names| :: |names[i]| <= MaxSlotNameLength
  {
    var applyName := Encode(Apply(pipelineId, slotPrefix));
    names := PushIfOk([], applyName);
    for k := 0 to |tableIds|
      invariant names == PipelineSlotNames(pipelineId, tableIds[..k], slotPrefix)
    {
      var syncName := Encode(TableSync(pipelineId, tableIds[k], slotPrefix));
      PipelineSlotNamesStep(pipelineId, tableIds, k, slotPrefix);
      names := PushIfOk(names, syncName);
    }
    assert tableIds[..|tableIds|] == tableIds;
    SlotNamesBounded(pipelineId, tableIds, slotPrefix);
  }

  /** `if let Ok(name) = .. { names.push(name) }`: push a name only when it was built. */
  method PushIfOk(names: seq<Bytes>, r: Result<Bytes, SlotError>) returns (pushed: seq<Bytes>)
    ensures pushed == names + NameIfOk(r)
  {
    pushed := names;
    if r.Ok? {
      pushed := pushed + [r.value];
    }
  }

  /** Encoding one more item appends at most that item's name. */
  lemma EncodedNamesStep<T>(items: seq<T>, encode: T -> Result<Bytes, SlotError>, k: nat)
    requires k < |items|
    ensures EncodedNames(items[..k + 1], encode) == EncodedNames(items[..k], encode) + NameIfOk(encode(items[k]))
  {
    assert items[..k + 1][..k] == items[..k];
  }

  lemma PipelineSlotNamesStep(pipelineId: u64, tableIds: seq<TableId>, k: nat, slotPrefix: Bytes)
    requires k < |tableIds|
    ensures PipelineSlotNames(pipelineId, tableIds[..k + 1], slotPrefix)
      == PipelineSlotNames(pipelineId, tableIds[..k], slotPrefix) + NameIfOk(Encode(TableSync(pipelineId, tableIds[k], slotPrefix)))
  {
    var encode := SyncSlotName(pipelineId, slotPrefix);
    EncodedNamesStep(tableIds, encode, k);
    ConcatAssociative(NameIfOk(Encode(Apply(pipelineId, slotPrefix))), EncodedNames(tableIds[..k], encode),
      NameIfOk(encode(tableIds[k])));
  }

  lemma ConcatAssociative<T>(a: seq<T>, b: seq<T>, c: seq<T>)
    ensures (a + b) + c == a + (b + c)
  {
  }

  /** A name is collected exactly when some item encodes to it, and there is at most one name per item. */
  lemma {:induction false} EncodedNamesMembers<T>(items: seq<T>, encode: T -> Result<Bytes, SlotError>, name: Bytes)
    ensures |EncodedNames(items, encode)| <= |items|
    ensures name in EncodedNames(items, encode) <==> exists x | x in items :: encode(x) == Ok(name)
  {
    if |items| > 0 {
      var init, last := items[..|items| - 1], items[|items| - 1];
      EncodedNamesMembers(init, encode, name);
      assert items == init + [last];
      if name in EncodedNames(init, encode) {
        var x :| x in init && encode(x) == Ok(name);
        assert x in items;
      } else if name in NameIfOk(encode(last)) {
        assert encode(last) == Ok(name);
      } else {
        forall x | x in items
          ensures encode(x) != Ok(name)
        {
          if x !in init {
            assert x == last;
          }
        }
      }
    }
  }

  /** When every item encodes, each item's name is collected, in order. */
  lemma {:induction false} EncodedNamesComplete<T>(items: seq<T>, encode: T -> Result<Bytes, SlotError>)
    requires forall x | x in items :: encode(x).Ok?
    ensures |EncodedNames(items, encode)| == |items|
    ensures forall i | 0 <= i < |items| :: EncodedNames(items, encode)[i] == encode(items[i]).value
  {
    if |items| > 0 {
      var init := items[..|items| - 1];
      assert forall x | x in init :: x in items;
      EncodedNamesComplete(init, encode);
      var names := EncodedNames(items, encode);
      forall i | 0 <= i < |items|
        ensures names[i] == encode(items[i]).value
      {
        if i < |init| {
          assert init[i] == items[i];
        }
      }
    }
  }

  /** At most one name per table plus the apply slot's, and every one fits Postgres's limit. */
  lemma SlotNamesBounded(pipelineId: u64, tableIds: seq<TableId>, slotPrefix: Bytes)
    ensures |PipelineSlotNames(pipelineId, tableIds, slotPrefix)| <= |tableIds| + 1
    ensures forall n <- PipelineSlotNames(pipelineId, tableIds, slotPrefix) :: |n| <= MaxSlotNameLength
  {
    forall n <- PipelineSlotNames(pipelineId, tableIds, slotPrefix)
      ensures |n| <= MaxSlotNameLength
    {
      PipelineSlotNamesMembers(pipelineId, tableIds, slotPrefix, n);
    }
    EncodedNamesMembers(tableIds, SyncSlotName(pipelineId, slotPrefix), []);
  }

  /**
   * A name is scheduled for deletion exactly when it is the encoded name of the
   * pipeline's apply slot or of the table-sync slot of one of its tables; the
   * apply slot's name comes first when it encodes.
   */
  lemma PipelineSlotNamesMembers(pipelineId: u64, tableIds: seq<TableId>, slotPrefix: Bytes, name: Bytes)
    ensures name in PipelineSlotNames(pipelineId, tableIds, slotPrefix)
      <==> (Encode(Apply(pipelineId, slotPrefix)) == Ok(name)
        || exists t | t in tableIds :: Encode(TableSync(pipelineId, t, slotPrefix)) == Ok(name))
    ensures Encode(Apply(pipelineId, slotPrefix)).Ok? ==>
      PipelineSlotNames(pipelineId, tableIds, slotPrefix)[0] == Encode(Apply(pipelineId, slotPrefix)).value
  {
    var encode := SyncSlotName(pipelineId, slotPrefix);
    EncodedNamesMembers(tableIds, encode, name);
    assert forall t :: encode(t) == Encode(TableSync(pipelineId, t, slotPrefix));
  }

  /** A row of `pg_replication_slots`, reduced to the two columns the deletion reads. */
  datatype ReplicationSlotRow = ReplicationSlotRow(slotName: Bytes, active: bool)

  /** `where r.slot_name = any($1) and r.active = false`: the rows the deletion drops. */
  predicate Dropped(row: ReplicationSlotRow, names: seq<Bytes>) {
    row.slotName in names && !row.active
  }

  /** The catalog after `pg_drop_replication_slot` has run on every selected row. */
  function DropInactiveSlots(catalog: seq<ReplicationSlotRow>, names: seq<Bytes>): (remaining: seq<ReplicationSlotRow>)
    ensures |remaining| <= |catalog|
    ensures forall row <- remaining :: row in catalog && !Dropped(row, names)
    ensures forall row <- catalog :: row in remaining <==> !Dropped(row, names)
  {
    if |catalog| == 0 then []
    else
      var rest := DropInactiveSlots(catalog[1..], names);
      if Dropped(catalog[0], names) then rest else [catalog[0]] + rest
  }

  /** Running the deletion a second time with the same names drops nothing further. */
  lemma {:induction false} DropInactiveSlotsIdempotent(catalog: seq<ReplicationSlotRow>, names: seq<Bytes>)
    ensures DropInactiveSlots(DropInactiveSlots(catalog, names), names) == DropInactiveSlots(catalog, names)
  {
    if |catalog| > 0 {
      DropInactiveSlotsIdempotent(catalog[1..], names);
      var rest := DropInactiveSlots(catalog[1..], names);
      if !Dropped(catalog[0], names) {
        assert ([catalog[0]] + rest)[1..] == rest;
      }
    }
  }

  /** When no row of the catalog is selected, the deletion leaves the catalog exactly as it was. */
  lemma {:induction false} DropInactiveSlotsNothingSelected(catalog: seq<ReplicationSlotRow>, names: seq<Bytes>)
    ensures (forall row <- catalog :: !Dropped(row, names)) ==> DropInactiveSlots(catalog, names) == catalog
  {
    if |catalog| > 0 {
      DropInactiveSlotsNothingSelected(catalog[1..], names);
      if forall row <- catalog :: !Dropped(row, names) {
        assert forall row <- catalog[1..] :: !Dropped(row, names) by {
          forall row <- catalog[1..] ensures !Dropped(row, names) {
            assert row in catalog;
          }
        }
      }
    }
  }

  /**
   * `delete_pipeline_replication_slots` on a catalog: an active slot is never
   * dropped, a slot whose name the pipeline does not own is never dropped, and
   * every inactive slot named by the pipeline's collected names is dropped.
   */
  method DeletePipelineReplicationSlots(catalog: seq<ReplicationSlotRow>, pipelineId: u64, tableIds: seq<TableId>, slotPrefix: Bytes)
    returns (remaining: seq<ReplicationSlotRow>)
    ensures remaining == DropInactiveSlots(catalog, PipelineSlotNames(pipelineId, tableIds, slotPrefix))
    ensures forall row <- catalog :: row.active ==> row in remaining
    ensures forall row <- catalog ::
      row !in remaining <==> !row.active && row.slotName in PipelineSlotNames(pipelineId, tableIds, slotPrefix)
  {
    var names := CollectSlotNames(pipelineId, tableIds, slotPrefix);
    remaining := DropInactiveSlots(catalog, names);
  }
}
