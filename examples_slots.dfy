/** Concrete names: the identities the codec's own test cases use, encoded and decoded. */
module SlotExamples {
  import opened Wrappers
  import opened Primitives
  import opened Text
  import opened Slots
  import SlotProperties
  import Pipeline

  /** A prefix without '_' cannot contain "_apply" or "_table_sync", so its names decode back. */
  lemma NoUnderscoreNoStem(p: Bytes)
    requires Underscore !in p
    ensures !Contains(p, ApplyStem) && !Contains(p, TableSyncStem)
  {
    forall i: nat | i <= |p|
      ensures !OccursAt(p, ApplyStem, i) && !OccursAt(p, TableSyncStem, i)
    {
      if i < |p| {
        assert p[i] != Underscore;
        assert i + |ApplyStem| <= |p| ==> p[i..i + |ApplyStem|][0] == p[i];
        assert i + |TableSyncStem| <= |p| ==> p[i..i + |TableSyncStem|][0] == p[i];
      }
    }
  }

  /**
   * A prefix in which every '_' is followed by a byte other than 'a' and 't'
   * contains neither "_apply" nor "_table_sync".
   */
  lemma NoRoleWordAfterUnderscore(p: Bytes)
    requires forall i | 0 <= i < |p| && p[i] == Underscore :: i + 1 < |p| && p[i + 1] != 97 && p[i + 1] != 116
    ensures !Contains(p, ApplyStem) && !Contains(p, TableSyncStem)
  {
    forall i: nat | i <= |p|
      ensures !OccursAt(p, ApplyStem, i) && !OccursAt(p, TableSyncStem, i)
    {
      if i + |ApplyStem| <= |p| {
        assert p[i..i + |ApplyStem|][0] == p[i] && p[i..i + |ApplyStem|][1] == p[i + 1];
      }
      if i + |TableSyncStem| <= |p| {
        assert p[i..i + |TableSyncStem|][0] == p[i] && p[i..i + |TableSyncStem|][1] == p[i + 1];
      }
    }
  }

  lemma Decimal123()
    ensures Decimal(123) == [49, 50, 51]
  {
    assert Decimal(12) == [49, 50];
  }

  lemma Decimal12345()
    ensures Decimal(12345) == [49, 50, 51, 52, 53]
  {
    Decimal123();
    assert Decimal(1234) == [49, 50, 51, 52];
  }

  lemma Decimal456And789()
    ensures Decimal(456) == [52, 53, 54]
    ensures Decimal(789) == [55, 56, 57]
  {
    assert Decimal(45) == [52, 53];
    assert Decimal(78) == [55, 56];
  }

  /** "custom", and the names on it from the table-sync test cases. */
  const Custom: Bytes := [99, 117, 115, 116, 111, 109]

  /** Pipeline 1 and table 123 on "custom" are named "custom_table_sync_1_123". */
  lemma CustomTableSyncName()
    ensures Encode(TableSync(1, 123, Custom)) == Ok(Custom + TableSyncPattern + [49, 95, 49, 50, 51])
  {
    Decimal123();
    assert SlotName(TableSync(1, 123, Custom)) == Custom + TableSyncPattern + [49, 95, 49, 50, 51];
  }

  /** "custom_table_sync_7_12345" decodes to pipeline 7, table 12345, prefix "custom". */
  lemma CustomTableSyncDecodes()
    ensures Decode(Custom + TableSyncPattern + [55, 95, 49, 50, 51, 52, 53]) == Ok(TableSync(7, 12345, Custom))
  {
    Decimal12345();
    assert SlotName(TableSync(7, 12345, Custom)) == Custom + TableSyncPattern + [55, 95, 49, 50, 51, 52, 53];
    NoUnderscoreNoStem(Custom);
    SlotProperties.RoundTrip(TableSync(7, 12345, Custom));
  }

  /** "myprefix": the prefix of the codec's round-trip test case. */
  const MyPrefix: Bytes := [109, 121, 112, 114, 101, 102, 105, 120]

  /** "myprefix_apply_123" decodes, and the identity encodes back to the same name. */
  lemma MyPrefixApplyRoundTrip()
    ensures var name := MyPrefix + ApplyPattern + [49, 50, 51];
      && Decode(name) == Ok(Apply(123, MyPrefix))
      && Encode(Decode(name).value) == Ok(name)
  {
    Decimal123();
    NoUnderscoreNoStem(MyPrefix);
    SlotProperties.RoundTrip(Apply(123, MyPrefix));
  }

  /** "myprefix_table_sync_456_789" decodes, and the identity encodes back to the same name. */
  lemma MyPrefixTableSyncRoundTrip()
    ensures var name := MyPrefix + TableSyncPattern + [52, 53, 54, 95, 55, 56, 57];
      && Decode(name) == Ok(TableSync(456, 789, MyPrefix))
      && Encode(Decode(name).value) == Ok(name)
  {
    Decimal456And789();
    assert SlotName(TableSync(456, 789, MyPrefix)) == MyPrefix + TableSyncPattern + [52, 53, 54, 95, 55, 56, 57];
    NoUnderscoreNoStem(MyPrefix);
    SlotProperties.RoundTrip(TableSync(456, 789, MyPrefix));
  }

  /** "myapp", the prefix of the prefix helpers' test cases. */
  const MyApp: Bytes := [109, 121, 97, 112, 112]

  /** With prefix "myapp" and pipeline 42: "myapp_apply_42" and "myapp_table_sync_42_". */
  lemma MyAppPrefixes()
    ensures ApplyPrefix(42, MyApp) == Ok(MyApp + ApplyPattern + [52, 50])
    ensures TableSyncPrefix(42, MyApp) == Ok(MyApp + TableSyncPattern + [52, 50, 95])
  {
    assert Decimal(42) == [52, 50];
    assert MyApp + TableSyncPattern + Decimal(42) + [Underscore] == MyApp + TableSyncPattern + [52, 50, 95];
  }

  /** The default prefix "supabase_etl", byte by byte. */
  lemma DefaultSlotPrefixBytes()
    ensures Pipeline.DefaultSlotPrefix == [115, 117, 112, 97, 98, 97, 115, 101, 95, 101, 116, 108]
  {
  }

  /**
   * With the default prefix, pipeline 1's apply slot is "supabase_etl_apply_1"
   * and its table-sync slot for table 123 is "supabase_etl_table_sync_1_123".
   */
  lemma DefaultPrefixNames()
    ensures Encode(Apply(1, Pipeline.DefaultSlotPrefix)) == Ok(Pipeline.DefaultSlotPrefix + ApplyPattern + [49])
    ensures Encode(TableSync(1, 123, Pipeline.DefaultSlotPrefix))
      == Ok(Pipeline.DefaultSlotPrefix + TableSyncPattern + [49, 95, 49, 50, 51])
  {
    DefaultSlotPrefixBytes();
    Decimal123();
    assert SlotName(TableSync(1, 123, Pipeline.DefaultSlotPrefix))
      == Pipeline.DefaultSlotPrefix + TableSyncPattern + [49, 95, 49, 50, 51];
  }

  /** The default prefix's only '_' is followed by 'e', so names built on it decode back. */
  lemma DefaultSlotPrefixHasNoRoleWord()
    ensures !Contains(Pipeline.DefaultSlotPrefix, ApplyStem) && !Contains(Pipeline.DefaultSlotPrefix, TableSyncStem)
  {
    DefaultSlotPrefixBytes();
    NoRoleWordAfterUnderscore(Pipeline.DefaultSlotPrefix);
  }

  /** With the default prefix and pipeline 42, the helpers give "supabase_etl_apply_42" and "supabase_etl_table_sync_42_". */
  lemma DefaultPrefixHelpers()
    ensures ApplyPrefix(42, Pipeline.DefaultSlotPrefix) == Ok(Pipeline.DefaultSlotPrefix + ApplyPattern + [52, 50])
    ensures TableSyncPrefix(42, Pipeline.DefaultSlotPrefix) == Ok(Pipeline.DefaultSlotPrefix + TableSyncPattern + [52, 50, 95])
  {
    DefaultSlotPrefixBytes();
    assert Decimal(42) == [52, 50];
    assert Pipeline.DefaultSlotPrefix + TableSyncPattern + Decimal(42) + [Underscore]
      == Pipeline.DefaultSlotPrefix + TableSyncPattern + [52, 50, 95];
  }

  /** "supabase_etl_apply_13" decodes to pipeline 13 on the default prefix. */
  lemma DefaultPrefixApplyNameDecodes()
    ensures Decode(Pipeline.DefaultSlotPrefix + ApplyPattern + [49, 51]) == Ok(Apply(13, Pipeline.DefaultSlotPrefix))
  {
    DefaultSlotPrefixHasNoRoleWord();
    assert Decimal(13) == [49, 51];
    SlotProperties.DecodeApplyName(13, Pipeline.DefaultSlotPrefix);
  }

  /** "supabase_etl_table_sync_7_12345" decodes to pipeline 7, table 12345 on the default prefix. */
  lemma DefaultPrefixTableSyncNameDecodes()
    ensures Decode(Pipeline.DefaultSlotPrefix + TableSyncPattern + [55, 95, 49, 50, 51, 52, 53])
      == Ok(TableSync(7, 12345, Pipeline.DefaultSlotPrefix))
  {
    DefaultSlotPrefixHasNoRoleWord();
    Decimal12345();
    assert SlotName(TableSync(7, 12345, Pipeline.DefaultSlotPrefix))
      == Pipeline.DefaultSlotPrefix + TableSyncPattern + [55, 95, 49, 50, 51, 52, 53];
    SlotProperties.DecodeTableSyncName(7, 12345, Pipeline.DefaultSlotPrefix);
  }

  /** "myapp_prod", the prefix of the custom-prefix apply test cases. */
  const MyAppProd: Bytes := [109, 121, 97, 112, 112, 95, 112, 114, 111, 100]

  /** Pipeline 1 on "myapp_prod" is named "myapp_prod_apply_1", and "myapp_prod_apply_42" decodes to pipeline 42. */
  lemma MyAppProdApplyNames()
    ensures Encode(Apply(1, MyAppProd)) == Ok(MyAppProd + ApplyPattern + [49])
    ensures Decode(MyAppProd + ApplyPattern + [52, 50]) == Ok(Apply(42, MyAppProd))
  {
    NoRoleWordAfterUnderscore(MyAppProd);
    assert Decimal(42) == [52, 50];
    SlotProperties.DecodeApplyName(42, MyAppProd);
  }

  /**
   * The largest pipeline id of the length test case, 2^63 - 1, with the largest
   * table id, on the default prefix: the name is
   * "supabase_etl_table_sync_9223372036854775807_4294967295", 54 bytes.
   */
  lemma LargestIdsOnDefaultPrefix()
    ensures Encode(TableSync(0x7FFF_FFFF_FFFF_FFFF, 0xFFFF_FFFF, Pipeline.DefaultSlotPrefix))
      == Ok(Pipeline.DefaultSlotPrefix + TableSyncPattern
            + [57, 50, 50, 51, 51, 55, 50, 48, 51, 54, 56, 53, 52, 55, 55, 53, 56, 48, 55]
            + [Underscore] + [52, 50, 57, 52, 57, 54, 55, 50, 57, 53])
  {
    DefaultSlotPrefixBytes();
    DecimalOfLargestPipelineId();
    DecimalOfLargestTableId();
  }

  lemma DecimalOfLargestPipelineId()
    ensures Decimal(9223372036854775807) == [57, 50, 50, 51, 51, 55, 50, 48, 51, 54, 56, 53, 52, 55, 55, 53, 56, 48, 55]
  {
    assert Decimal(922) == [57, 50, 50];
    assert Decimal(922337) == [57, 50, 50, 51, 51, 55];
    assert Decimal(922337203) == [57, 50, 50, 51, 51, 55, 50, 48, 51];
    assert Decimal(922337203685) == [57, 50, 50, 51, 51, 55, 50, 48, 51, 54, 56, 53];
    assert Decimal(922337203685477) == [57, 50, 50, 51, 51, 55, 50, 48, 51, 54, 56, 53, 52, 55, 55];
    assert Decimal(922337203685477580) == [57, 50, 50, 51, 51, 55, 50, 48, 51, 54, 56, 53, 52, 55, 55, 53, 56, 48];
  }

  lemma DecimalOfLargestTableId()
    ensures Decimal(4294967295) == [52, 50, 57, 52, 57, 54, 55, 50, 57, 53]
  {
    assert Decimal(429) == [52, 50, 57];
    assert Decimal(429496) == [52, 50, 57, 52, 57, 54];
    assert Decimal(429496729) == [52, 50, 57, 52, 57, 54, 55, 50, 57];
  }

  /** "tenant_01": a prefix holding a numeral with a leading zero. */
  const Tenant01: Bytes := [116, 101, 110, 97, 110, 116, 95, 48, 49]

  /**
   * Only the numerals after the delimiter must be canonical for a name to be
   * reproduced: "tenant_01_apply_5" decodes to pipeline 5 on "tenant_01" and
   * formats back to itself.
   */
  lemma LeadingZeroInPrefixIsReproduced()
    ensures Decode(Tenant01 + ApplyPattern + [53]) == Ok(Apply(5, Tenant01))
    ensures SlotProperties.CanonicalNumerals(Tenant01 + ApplyPattern + [53])
    ensures SlotName(Apply(5, Tenant01)) == Tenant01 + ApplyPattern + [53]
  {
    var name := Tenant01 + ApplyPattern + [53];
    NoRoleWordAfterUnderscore(Tenant01);
    assert ParseUnsigned([53], U64Bound) == Some(5);
    SlotProperties.DecodeApplyShape(Tenant01, [53]);
    assert Find(name, ApplyPattern) == Some(|Tenant01|) by {
      forall j: nat | j < |Tenant01|
        ensures !OccursAt(name, ApplyPattern, j)
      {
        SlotProperties.NoApplyPatternInPrefix(Tenant01, ApplyPattern + [53], j);
      }
      assert name[|Tenant01|..|Tenant01| + 7] == ApplyPattern;
      FindFirst(name, ApplyPattern, |Tenant01|);
    }
    assert name[|Tenant01| + 7..] == [53];
    assert Decimal(5) == [53];
  }

  /** "x_applyz": a prefix holding "_apply" but not "_apply_". */
  const ApplyzPrefix: Bytes := [120, 95, 97, 112, 112, 108, 121, 122]

  /**
   * The decoder splits at the first "_apply_", not at the first "_apply":
   * "x_applyz_apply_5" decodes to pipeline 5 on "x_applyz".
   */
  lemma PrefixWithApplyStemDecodes()
    ensures Decode(ApplyzPrefix + ApplyPattern + [53]) == Ok(Apply(5, ApplyzPrefix))
  {
    var name := ApplyzPrefix + ApplyPattern + [53];
    assert Find(name, ApplyPattern) == Some(8) by {
      forall j: nat | j < 8
        ensures !OccursAt(name, ApplyPattern, j)
      {
        assert name[j..j + 7][0] == name[j] && name[j..j + 7][6] == name[j + 6];
      }
      assert name[8..15] == ApplyPattern;
      FindFirst(name, ApplyPattern, 8);
    }
    assert name[15..] == [53];
    assert ParseUnsigned([53], U64Bound) == Some(5);
    var r := Decode(name);
    assert r.Ok?;
    assert r.value.Apply? by {
      assert Contains(name, ApplyPattern) by { assert OccursAt(name, ApplyPattern, 8); }
    }
    assert |r.value.prefix| == 8;
    assert r.value.prefix == name[..8] == ApplyzPrefix;
  }
}
