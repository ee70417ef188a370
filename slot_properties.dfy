/**
 * What the slot codec guarantees: decoding inverts encoding for prefixes that
 * do not contain a delimiter, decoding then formatting gives back canonical
 * names, and how the prefix helpers relate to full names.
 */
module SlotProperties {
  import opened Wrappers
  import opened Primitives
  import opened Text
  import opened Slots

  // ------------------------------------------------- locating the delimiter

  /**
   * When the prefix has no "_apply" in it and what follows the prefix starts
   * with '_', "_apply_" cannot start inside the prefix.
   */
  lemma NoApplyPatternInPrefix(p: Bytes, t: Bytes, j: nat)
    requires |t| >= 1 && t[0] == Underscore
    requires !Contains(p, ApplyStem)
    requires j < |p|
    ensures !OccursAt(p + t, ApplyPattern, j)
  {
    var s := p + t;
    var o := |p| - j;
    if j + 7 <= |s| {
      if o >= 6 {
        assert s[j..j + 6] == p[j..j + 6];
        assert !OccursAt(p, ApplyStem, j);
        assert s[j..j + 7][..6] == s[j..j + 6];
      } else {
        assert s[j + o] == t[0];
        assert s[j..j + 7][o] == s[j + o];
      }
    }
  }

  /**
   * When the prefix has no "_table_sync" in it and what follows the prefix
   * starts with "_t", "_table_sync_" cannot start inside the prefix.
   */
  lemma NoTableSyncPatternInPrefix(p: Bytes, t: Bytes, j: nat)
    requires |t| >= 2 && t[0] == Underscore && t[1] == 116
    requires !Contains(p, TableSyncStem)
    requires j < |p|
    ensures !OccursAt(p + t, TableSyncPattern, j)
  {
    var s := p + t;
    var o := |p| - j;
    if j + 12 <= |s| {
      if o >= 11 {
        assert s[j..j + 11] == p[j..j + 11];
        assert !OccursAt(p, TableSyncStem, j);
        assert s[j..j + 12][..11] == s[j..j + 11];
      } else if o == 6 {
        assert s[j + 7] == t[1] == 116;
        assert s[j..j + 12][7] == s[j + 7];
        assert TableSyncPattern[7] == 115;
      } else {
        assert s[j + o] == t[0];
        assert s[j..j + 12][o] == s[j + o];
      }
    }
  }

  /** The part of a table-sync name after the prefix has no "_apply_" in it. */
  lemma NoApplyPatternInTableSyncTail(d1: Bytes, d2: Bytes)
    requires AllDigits(d1) && AllDigits(d2)
    ensures !Contains(TableSyncPattern + d1 + [Underscore] + d2, ApplyPattern)
  {
    var t := TableSyncPattern + d1 + [Underscore] + d2;
    forall i: nat | i <= |t|
      ensures !OccursAt(t, ApplyPattern, i)
    {
      if i + 7 <= |t| {
        if i == 1 {
          assert t[i..i + 7][2] == t[3];
        } else {
          assert t[i..i + 7][1] == t[i + 1];
          assert i + 1 >= 12 ==> IsDigit(t[i + 1]) || t[i + 1] == Underscore;
        }
      }
    }
  }

  /** `rsplitn(2, '_')` of "<a>_<b>", where `b` holds no '_', gives back `b` and `a`. */
  lemma SplitAtLastUnderscore(d1: Bytes, d2: Bytes)
    requires Underscore !in d2
    ensures RSplitOnce(d1 + [Underscore] + d2, Underscore) == [d2, d1]
  {
    var s := d1 + [Underscore] + d2;
    assert s[|d1|] == Underscore;
    assert forall j | |d1| < j < |s| :: s[j] == d2[j - |d1| - 1];
    var k := LastIndexOf(s, Underscore);
    assert k == Some(|d1|);
    assert s[|d1| + 1..] == d2;
    assert s[..|d1|] == d1;
  }

  // ------------------------------------------------------------ round trip

  /**
   * Every name made of a prefix without "_apply", then "_apply_", then any
   * remainder, is decoded by the remainder alone: to the apply identity of its
   * value when it parses as a u64, and to `InvalidSlotName` otherwise.
   */
  lemma DecodeApplyShape(prefix: Bytes, rest: Bytes)
    requires !Contains(prefix, ApplyStem)
    ensures var name := prefix + ApplyPattern + rest;
      var pipelineId := ParseUnsigned(rest, U64Bound);
      && (pipelineId.Some? ==> Decode(name) == Ok(Apply(pipelineId.value as u64, prefix)))
      && (pipelineId.None? ==> Decode(name) == Err(InvalidSlotName(name)))
  {
    var tail := ApplyPattern + rest;
    var name := prefix + ApplyPattern + rest;
    assert name == prefix + tail;
    forall j: nat | j < |prefix|
      ensures !OccursAt(name, ApplyPattern, j)
    {
      NoApplyPatternInPrefix(prefix, tail, j);
    }
    assert name[|prefix|..|prefix| + 7] == ApplyPattern;
    FindFirst(name, ApplyPattern, |prefix|);
    assert name[..|prefix|] == prefix;
    assert name[|prefix| + 7..] == rest;
  }

  /**
   * Every name made of a prefix without "_table_sync", then "_table_sync_",
   * then two parts joined by its last '_', and holding no "_apply_", is decoded
   * by the two parts alone: to the table-sync identity of their values when
   * both parse (a u64, then a u32), and to `InvalidSlotName` otherwise.
   */
  lemma DecodeTableSyncShape(prefix: Bytes, pipelinePart: Bytes, tablePart: Bytes)
    requires !Contains(prefix, TableSyncStem) && Underscore !in tablePart
    requires !Contains(prefix + TableSyncPattern + pipelinePart + [Underscore] + tablePart, ApplyPattern)
    ensures var name := prefix + TableSyncPattern + pipelinePart + [Underscore] + tablePart;
      var pipelineId := ParseUnsigned(pipelinePart, U64Bound);
      var tableId := ParseUnsigned(tablePart, U32Bound);
      && (pipelineId.Some? && tableId.Some? ==>
          Decode(name) == Ok(TableSync(pipelineId.value as u64, tableId.value as u32, prefix)))
      && (pipelineId.None? || tableId.None? ==> Decode(name) == Err(InvalidSlotName(name)))
  {
    var rest := pipelinePart + [Underscore] + tablePart;
    var tail := TableSyncPattern + rest;
    var name := prefix + TableSyncPattern + pipelinePart + [Underscore] + tablePart;
    assert name == prefix + tail;
    assert tail[..12] == TableSyncPattern;
    TableSyncPatternFollowsPrefix(prefix, tail);
    assert name[..|prefix|] == prefix;
    assert name[|prefix| + 12..] == rest;
    SplitAtLastUnderscore(pipelinePart, tablePart);
  }

  /**
   * A name of the table-sync shape whose text after "_table_sync_" has no '_'
   * lacks the pipeline id part, and is refused.
   */
  lemma DecodeTableSyncWithoutSeparator(prefix: Bytes, rest: Bytes)
    requires !Contains(prefix, TableSyncStem) && Underscore !in rest
    requires !Contains(prefix + TableSyncPattern + rest, ApplyPattern)
    ensures Decode(prefix + TableSyncPattern + rest) == Err(InvalidSlotName(prefix + TableSyncPattern + rest))
  {
    var tail := TableSyncPattern + rest;
    var name := prefix + TableSyncPattern + rest;
    assert name == prefix + tail;
    assert tail[..12] == TableSyncPattern;
    TableSyncPatternFollowsPrefix(prefix, tail);
    assert name[|prefix| + 12..] == rest;
  }

  /** Decoding the apply name of a prefix without "_apply" recovers the identity. */
  lemma DecodeApplyName(pipelineId: u64, prefix: Bytes)
    requires !Contains(prefix, ApplyStem)
    ensures Decode(SlotName(Apply(pipelineId, prefix))) == Ok(Apply(pipelineId, prefix))
  {
    DecodeApplyShape(prefix, Decimal(pipelineId as nat));
    ParseDecimal(pipelineId as nat, U64Bound);
  }

  /** A table-sync name built on a prefix without "_apply" holds no "_apply_". */
  lemma NoApplyPatternInTableSyncName(prefix: Bytes, d1: Bytes, d2: Bytes)
    requires !Contains(prefix, ApplyStem) && AllDigits(d1) && AllDigits(d2)
    ensures !Contains(prefix + TableSyncPattern + d1 + [Underscore] + d2, ApplyPattern)
  {
    var tail := TableSyncPattern + d1 + [Underscore] + d2;
    var name := prefix + TableSyncPattern + d1 + [Underscore] + d2;
    assert name == prefix + tail;
    NoApplyPatternInTableSyncTail(d1, d2);
    forall j: nat | j <= |name|
      ensures !OccursAt(name, ApplyPattern, j)
    {
      if j < |prefix| {
        NoApplyPatternInPrefix(prefix, tail, j);
      } else if j + 7 <= |name| {
        assert name[j..j + 7] == tail[j - |prefix|..j - |prefix| + 7];
        assert !OccursAt(tail, ApplyPattern, j - |prefix|);
      }
    }
  }

  /** In a table-sync name built on a prefix without "_table_sync", the first "_table_sync_" follows the prefix. */
  lemma TableSyncPatternFollowsPrefix(prefix: Bytes, tail: Bytes)
    requires !Contains(prefix, TableSyncStem)
    requires |tail| >= 12 && tail[..12] == TableSyncPattern
    ensures Find(prefix + tail, TableSyncPattern) == Some(|prefix|)
  {
    var name := prefix + tail;
    forall j: nat | j < |prefix|
      ensures !OccursAt(name, TableSyncPattern, j)
    {
      NoTableSyncPatternInPrefix(prefix, tail, j);
    }
    assert name[|prefix|..|prefix| + 12] == tail[..12];
    FindFirst(name, TableSyncPattern, |prefix|);
  }

  /**
   * Decoding the table-sync name of a prefix with neither "_apply" nor
   * "_table_sync" in it recovers the identity.
   */
  lemma DecodeTableSyncName(pipelineId: u64, tableId: TableId, prefix: Bytes)
    requires !Contains(prefix, ApplyStem) && !Contains(prefix, TableSyncStem)
    ensures Decode(SlotName(TableSync(pipelineId, tableId, prefix))) == Ok(TableSync(pipelineId, tableId, prefix))
  {
    var d1 := Decimal(pipelineId as nat);
    var d2 := Decimal(tableId as nat);
    NoApplyPatternInTableSyncName(prefix, d1, d2);
    assert Underscore !in d2 by {
      forall i | 0 <= i < |d2| ensures d2[i] != Underscore { assert IsDigit(d2[i]); }
    }
    DecodeTableSyncShape(prefix, d1, d2);
    ParseDecimal(pipelineId as nat, U64Bound);
    ParseDecimal(tableId as nat, U32Bound);
  }

  /**
   * The numerals of a table-sync name: `rsplitn(2, '_')` of the text after
   * "_table_sync_" gives two canonical numerals, worth the table id and the
   * pipeline id.
   */
  lemma TableSyncNameNumerals(pipelineId: u64, tableId: TableId, prefix: Bytes)
    ensures var name := SlotName(TableSync(pipelineId, tableId, prefix));
      var parts := RSplitOnce(name[|prefix| + |TableSyncPattern|..], Underscore);
      && |parts| == 2
      && IsCanonicalDecimal(parts[0]) && DigitsValue(parts[0]) == tableId as nat
      && IsCanonicalDecimal(parts[1]) && DigitsValue(parts[1]) == pipelineId as nat
  {
    var d1 := Decimal(pipelineId as nat);
    var d2 := Decimal(tableId as nat);
    var name := SlotName(TableSync(pipelineId, tableId, prefix));
    assert name[|prefix| + |TableSyncPattern|..] == d1 + [Underscore] + d2;
    assert Underscore !in d2 by {
      forall i | 0 <= i < |d2| ensures d2[i] != Underscore { assert IsDigit(d2[i]); }
    }
    SplitAtLastUnderscore(d1, d2);
    DigitsValueOfDecimal(pipelineId as nat);
    DigitsValueOfDecimal(tableId as nat);
  }

  /**
   * Round trip: a slot whose encoding succeeds and whose prefix contains neither
   * "_apply" nor "_table_sync" is recovered exactly from its name, for every
   * pipeline id and table id, boundary values included.
   */
  lemma RoundTrip(slot: EtlReplicationSlot)
    requires Encode(slot).Ok?
    requires !Contains(slot.prefix, ApplyStem) && !Contains(slot.prefix, TableSyncStem)
    ensures Decode(Encode(slot).value) == Ok(slot)
  {
    match slot
    case Apply(pipelineId, prefix) => DecodeApplyName(pipelineId, prefix);
    case TableSync(pipelineId, tableId, prefix) => DecodeTableSyncName(pipelineId, tableId, prefix);
  }

  // ------------------------------------------------- decoding, then formatting

  /**
   * The numerals the decoder reads from `name`, after the first delimiter, are
   * written canonically: no '+' and no superfluous leading zero. The prefix is
   * not constrained.
   */
  predicate CanonicalNumerals(name: Bytes) {
    match Find(name, ApplyPattern)
    case Some(pos) => IsCanonicalDecimal(name[pos + |ApplyPattern|..])
    case None =>
      match Find(name, TableSyncPattern)
      case Some(pos) =>
        var parts := RSplitOnce(name[pos + |TableSyncPattern|..], Underscore);
        |parts| == 2 && IsCanonicalDecimal(parts[1]) && IsCanonicalDecimal(parts[0])
      case None => false
  }

  /** `FormatDecoded` for the apply shape, found at `pos`. */
  lemma FormatDecodedApply(name: Bytes, pos: nat)
    requires pos + 7 <= |name| && name[pos..pos + 7] == ApplyPattern
    requires DecodeApply(name, pos).Ok? && IsCanonicalDecimal(name[pos + 7..])
    ensures SlotName(DecodeApply(name, pos).value) == name
  {
    ParseCanonicalDecimal(name[pos + 7..], U64Bound);
    SplitAround(name, pos, 7);
  }

  /** `FormatDecoded` for the table-sync shape, found at `pos`. */
  lemma FormatDecodedTableSync(name: Bytes, pos: nat)
    requires pos + 12 <= |name| && name[pos..pos + 12] == TableSyncPattern
    requires DecodeTableSync(name, pos).Ok?
    requires var parts := RSplitOnce(name[pos + 12..], Underscore);
      |parts| == 2 && IsCanonicalDecimal(parts[1]) && IsCanonicalDecimal(parts[0])
    ensures SlotName(DecodeTableSync(name, pos).value) == name
  {
    var parts := RSplitOnce(name[pos + 12..], Underscore);
    var slot := DecodeTableSync(name, pos).value;
    ParseCanonicalDecimal(parts[1], U64Bound);
    ParseCanonicalDecimal(parts[0], U32Bound);
    assert name[pos + 12..] == Decimal(slot.pipelineId as nat) + [Underscore] + Decimal(slot.tableId as nat);
    TableSyncNameLayout(name, pos, slot.pipelineId, slot.tableId);
  }

  /** A name laid out as prefix, "_table_sync_", two numerals, is the name of that slot. */
  lemma TableSyncNameLayout(name: Bytes, pos: nat, pipelineId: u64, tableId: TableId)
    requires pos + 12 <= |name| && name[pos..pos + 12] == TableSyncPattern
    requires name[pos + 12..] == Decimal(pipelineId as nat) + [Underscore] + Decimal(tableId as nat)
    ensures SlotName(TableSync(pipelineId, tableId, name[..pos])) == name
  {
    SplitAround(name, pos, 12);
  }

  /**
   * Decoding a name whose numerals are canonical, then formatting the identity,
   * gives the name back; the encoder accepts it exactly when it is at most 63
   * bytes long, since decoding applies no length check.
   */
  lemma FormatDecoded(name: Bytes)
    requires Decode(name).Ok? && CanonicalNumerals(name)
    ensures SlotName(Decode(name).value) == name
    ensures Encode(Decode(name).value) == Ok(name) <==> |name| <= MaxSlotNameLength
  {
    var applyPos := Find(name, ApplyPattern);
    if applyPos.Some? {
      FormatDecodedApply(name, applyPos.value);
    } else {
      FormatDecodedTableSync(name, Find(name, TableSyncPattern).value);
    }
  }

  /**
   * The converse fails for non-canonical numerals: "x_apply_01" and
   * "x_apply_+1" both decode to the apply slot of pipeline 1, whose name is
   * "x_apply_1".
   */
  lemma NonCanonicalNamesAreNotReproduced()
    ensures Decode(Ascii("x_apply_01")) == Ok(Apply(1, Ascii("x")))
    ensures Decode(Ascii("x_apply_+1")) == Ok(Apply(1, Ascii("x")))
    ensures Encode(Apply(1, Ascii("x"))) == Ok(Ascii("x_apply_1"))
  {
    LeadingZeroName();
    LeadingPlusName();
    CanonicalName();
  }

  lemma CanonicalName()
    ensures Ascii("x") == [120]
    ensures Encode(Apply(1, [120])) == Ok(Ascii("x_apply_1"))
  {
    assert Ascii("x_apply_1") == [120] + ApplyPattern + [49];
  }

  lemma LeadingZeroName()
    ensures Decode(Ascii("x_apply_01")) == Ok(Apply(1, [120]))
  {
    assert Ascii("x_apply_01") == [120] + ApplyPattern + [48, 49];
    assert DigitsValue([48, 49][..1]) == 0;
    DecodeAfterX(Ascii("x_apply_01"), [48, 49]);
  }

  lemma LeadingPlusName()
    ensures Decode(Ascii("x_apply_+1")) == Ok(Apply(1, [120]))
  {
    assert Ascii("x_apply_+1") == [120] + ApplyPattern + [43, 49];
    assert [43, 49][1..] == [49];
    assert DigitsValue([49]) == 1;
    DecodeAfterX(Ascii("x_apply_+1"), [43, 49]);
  }

  /** Decoding "x_apply_" followed by a numeral worth 1. */
  lemma DecodeAfterX(name: Bytes, numeral: Bytes)
    requires name == [120] + ApplyPattern + numeral
    requires ParseUnsigned(numeral, U64Bound) == Some(1)
    ensures Decode(name) == Ok(Apply(1, [120]))
  {
    assert name[1..8] == ApplyPattern;
    assert name[0..7][0] == 120;
    FindFirst(name, ApplyPattern, 1);
    assert name[8..] == numeral;
    assert name[..1] == [120];
    assert Decode(name) == DecodeApply(name, 1);
  }

  /**
   * The round trip needs its condition on the prefix: with the prefix "a_apply"
   * the apply name "a_apply_apply_5" encodes, but decoding it stops at the first
   * "_apply_" and fails.
   */
  lemma RoundTripNeedsApplyFreePrefix()
    ensures Encode(Apply(5, Ascii("a_apply"))) == Ok(Ascii("a_apply_apply_5"))
    ensures Decode(Ascii("a_apply_apply_5")) == Err(InvalidSlotName(Ascii("a_apply_apply_5")))
  {
    ApplyStemPrefixBytes();
    ApplyStemPrefixNameFails();
  }

  /** "a_apply" and "a_apply_apply_5", byte by byte. */
  lemma ApplyStemPrefixBytes()
    ensures Ascii("a_apply") == [97, 95, 97, 112, 112, 108, 121]
    ensures Ascii("a_apply_apply_5") == [97, 95, 97, 112, 112, 108, 121, 95, 97, 112, 112, 108, 121, 95, 53]
  {
  }

  /** `RoundTripNeedsApplyFreePrefix` on byte literals. */
  lemma ApplyStemPrefixNameFails()
    ensures var prefix: Bytes := [97, 95, 97, 112, 112, 108, 121];
      var name: Bytes := [97, 95, 97, 112, 112, 108, 121, 95, 97, 112, 112, 108, 121, 95, 53];
      Encode(Apply(5, prefix)) == Ok(name) && Decode(name) == Err(InvalidSlotName(name))
  {
    var prefix: Bytes := [97, 95, 97, 112, 112, 108, 121];
    var name: Bytes := [97, 95, 97, 112, 112, 108, 121, 95, 97, 112, 112, 108, 121, 95, 53];
    assert Decimal(5) == [53];
    assert SlotName(Apply(5, prefix)) == name;
    assert name[1..8] == ApplyPattern;
    assert name[0..7][0] == 97;
    FindFirst(name, ApplyPattern, 1);
    assert name[8..][0] == 97;
  }

  // ------------------------------------------------------------- rejection

  /** Text without a digit is no number. */
  lemma NoDigitsNoNumber(s: Bytes, bound: nat)
    requires forall i | 0 <= i < |s| :: !IsDigit(s[i])
    ensures ParseUnsigned(s, bound).None?
  {
    if |s| >= 2 {
      assert !IsDigit(s[1]);
    }
  }

  /** A name without a single digit is rejected as `InvalidSlotName`, whichever delimiters it holds. */
  lemma DecodeRejectsNamesWithoutDigits(name: Bytes)
    requires forall i | 0 <= i < |name| :: !IsDigit(name[i])
    ensures Decode(name) == Err(InvalidSlotName(name))
  {
    var applyPos := Find(name, ApplyPattern);
    if applyPos.Some? {
      NoDigitsNoNumber(name[applyPos.value + |ApplyPattern|..], U64Bound);
    } else {
      var syncPos := Find(name, TableSyncPattern);
      if syncPos.Some? {
        var rest := name[syncPos.value + |TableSyncPattern|..];
        var parts := RSplitOnce(rest, Underscore);
        if |parts| == 2 {
          assert forall i | 0 <= i < |parts[0]| :: parts[0][i] == rest[|parts[1]| + 1 + i];
          NoDigitsNoNumber(parts[0], U32Bound);
        }
      }
    }
  }

  /** The names the codec's tests expect to be rejected. */
  lemma DecodeRejectsTestNames()
    ensures Decode(Ascii("unknown_slot")).Err?
    ensures Decode(Ascii("supabase_etl_apply_")).Err?
    ensures Decode(Ascii("supabase_etl_table_sync_abc")).Err?
  {
    UnknownSlotHasNoDigits();
    DecodeRejectsNamesWithoutDigits(Ascii("unknown_slot"));
    EmptyApplyIdHasNoDigits();
    DecodeRejectsNamesWithoutDigits(Ascii("supabase_etl_apply_"));
    LetterTableIdHasNoDigits();
    DecodeRejectsNamesWithoutDigits(Ascii("supabase_etl_table_sync_abc"));
  }

  lemma UnknownSlotHasNoDigits()
    ensures forall i | 0 <= i < |Ascii("unknown_slot")| :: !IsDigit(Ascii("unknown_slot")[i])
  {
    assert Ascii("unknown_slot") == [117, 110, 107, 110, 111, 119, 110, 95, 115, 108, 111, 116];
  }

  lemma EmptyApplyIdHasNoDigits()
    ensures forall i | 0 <= i < |Ascii("supabase_etl_apply_")| :: !IsDigit(Ascii("supabase_etl_apply_")[i])
  {
    assert Ascii("supabase_etl_apply_") ==
      [115, 117, 112, 97, 98, 97, 115, 101, 95, 101, 116, 108, 95, 97, 112, 112, 108, 121, 95];
  }

  lemma LetterTableIdHasNoDigits()
    ensures forall i | 0 <= i < |Ascii("supabase_etl_table_sync_abc")| :: !IsDigit(Ascii("supabase_etl_table_sync_abc")[i])
  {
    assert Ascii("supabase_etl_table_sync_abc") ==
      [115, 117, 112, 97, 98, 97, 115, 101, 95, 101, 116, 108, 95, 116, 97, 98, 108, 101, 95, 115, 121, 110, 99, 95, 97, 98, 99];
  }

  // --------------------------------------------------------- prefix helpers

  /** A successful `apply_prefix` is the apply slot's full name. */
  lemma ApplyPrefixIsApplyName(pipelineId: u64, slotPrefix: Bytes)
    requires ApplyPrefix(pipelineId, slotPrefix).Ok?
    ensures Encode(Apply(pipelineId, slotPrefix)) == ApplyPrefix(pipelineId, slotPrefix)
  {
  }

  /**
   * `apply_prefix` is one byte stricter than the encoder: they disagree exactly
   * on apply names of 63 bytes, which the encoder accepts and the helper refuses.
   */
  lemma ApplyPrefixOneByteStricter(pipelineId: u64, slotPrefix: Bytes)
    ensures (ApplyPrefix(pipelineId, slotPrefix).Err? && Encode(Apply(pipelineId, slotPrefix)).Ok?)
        <==> |SlotName(Apply(pipelineId, slotPrefix))| == MaxSlotNameLength
    ensures ApplyPrefix(pipelineId, slotPrefix).Ok? ==> Encode(Apply(pipelineId, slotPrefix)).Ok?
  {
  }

  /** A successful `table_sync_prefix` starts the name of every table-sync slot of that pipeline. */
  lemma TableSyncPrefixStartsEveryName(pipelineId: u64, tableId: TableId, slotPrefix: Bytes)
    requires TableSyncPrefix(pipelineId, slotPrefix).Ok?
    ensures TableSyncPrefix(pipelineId, slotPrefix).value <= SlotName(TableSync(pipelineId, tableId, slotPrefix))
    ensures Encode(TableSync(pipelineId, tableId, slotPrefix)).Ok? ==>
      TableSyncPrefix(pipelineId, slotPrefix).value <= Encode(TableSync(pipelineId, tableId, slotPrefix)).value
  {
    var prefix := TableSyncPrefix(pipelineId, slotPrefix).value;
    assert SlotName(TableSync(pipelineId, tableId, slotPrefix)) == prefix + Decimal(tableId as nat);
  }

  /**
   * For `table_sync_prefix` the bound is exact: it fails precisely when no
   * table-sync slot of that pipeline and prefix can be encoded.
   */
  lemma TableSyncPrefixFailsIffNoNameFits(pipelineId: u64, slotPrefix: Bytes)
    ensures TableSyncPrefix(pipelineId, slotPrefix).Err? <==>
      forall tableId: TableId :: Encode(TableSync(pipelineId, tableId, slotPrefix)).Err?
  {
    assert |Decimal(0)| == 1;
    assert Encode(TableSync(pipelineId, 0, slotPrefix)).Err? ==> TableSyncPrefix(pipelineId, slotPrefix).Err?;
  }
}
