/** How `vennLabelsNames_` partitions the rows `[item, group]` of a table into
    the regions of a Venn diagram, one region per non-empty combination of
    groups, and writes a label for each region. */
module VennPartition {
  import opened Wrappers
  import opened Binary
  import opened Numerals
  import opened Text

  /** One row of the table: an item and a group it belongs to. */
  datatype Row = Row(item: string, group: string)

  function GroupSet(table: seq<Row>): set<string>
  {
    set row | row in table :: row.group
  }

  function ItemSet(table: seq<Row>): set<string>
  {
    set row | row in table :: row.item
  }

  /** The groups the rows give to item `it`. */
  function GroupsOf(table: seq<Row>, it: string): set<string>
  {
    set row | row in table && row.item == it :: row.group
  }

  lemma SnocSets(table: seq<Row>, row: Row)
    ensures GroupSet(table + [row]) == GroupSet(table) + {row.group}
    ensures ItemSet(table + [row]) == ItemSet(table) + {row.item}
    ensures forall it :: GroupsOf(table + [row], it)
                      == GroupsOf(table, it) + (if it == row.item then {row.group} else {})
  {
    var t := table + [row];
    assert forall r :: r in t <==> r in table || r == row;
  }

  /** The keys of `groupsMap`: each group once, in order of first appearance. */
  function GroupOrder(table: seq<Row>): (r: seq<string>)
    ensures NoDuplicates(r) && Elems(r) == GroupSet(table)
  {
    if table == [] then []
    else
      var prefix := table[..|table| - 1];
      var row := table[|table| - 1];
      assert table == prefix + [row];
      SnocSets(prefix, row);
      var prev := GroupOrder(prefix);
      if row.group in prev then prev else prev + [row.group]
  }

  /** The keys of `itemGroups`: each item once, in order of first appearance. */
  function ItemOrder(table: seq<Row>): (r: seq<string>)
    ensures NoDuplicates(r) && Elems(r) == ItemSet(table)
  {
    if table == [] then []
    else
      var prefix := table[..|table| - 1];
      var row := table[|table| - 1];
      assert table == prefix + [row];
      SnocSets(prefix, row);
      var prev := ItemOrder(prefix);
      if row.item in prev then prev else prev + [row.item]
  }

  /** `groupNames`: the group keys sorted; the position of a group is its bit. */
  function SortedGroupNames(table: seq<Row>): seq<string>
  {
    SortStrings(GroupOrder(table))
  }

  /** The group names are the table's groups, each once, in ascending order. */
  lemma NamesAreGroups(table: seq<Row>)
    ensures StrictlySorted(SortedGroupNames(table))
    ensures Elems(SortedGroupNames(table)) == GroupSet(table)
    ensures |SortedGroupNames(table)| == |GroupSet(table)|
  {
    SortDistinct(GroupOrder(table));
    DistinctSize(GroupOrder(table));
  }

  /** A sequence without repeats has as many elements as it is long. */
  lemma {:induction false} DistinctSize<T>(s: seq<T>)
    requires NoDuplicates(s)
    ensures |Elems(s)| == |s|
  {
    if s != [] {
      var p := s[..|s| - 1];
      DistinctSize(p);
      assert s == p + [s[|s| - 1]];
      assert Elems(s) == Elems(p) + {s[|s| - 1]};
    }
  }

  lemma StrictlyDistinct(s: seq<string>, i: nat, j: nat)
    requires StrictlySorted(s) && i < |s| && j < |s| && s[i] == s[j]
    ensures i == j
  {
    if i < j {
      LessIrreflexive(s[i]);
    } else if j < i {
      LessIrreflexive(s[j]);
    }
  }

  /** Membership of one item as a key: character `p` is `1` iff the item is in
      group `names[p]` (bit `N - p - 1` of its bitmap). */
  function MembershipString(names: seq<string>, gs: set<string>): (r: string)
    ensures |r| == |names| && IsBinary(r)
  {
    if names == [] then [] else [BitChar(names[0] in gs)] + MembershipString(names[1..], gs)
  }

  lemma {:induction false} MembershipAt(names: seq<string>, gs: set<string>, p: nat)
    requires p < |names|
    ensures MembershipString(names, gs)[p] == BitChar(names[p] in gs)
  {
    if p > 0 {
      MembershipAt(names[1..], gs, p - 1);
    }
  }

  /** The bitmap of an item in groups `gs`. */
  function Code(names: seq<string>, gs: set<string>): (c: nat)
    ensures c < Pow2(|names|)
  {
    FromBinaryBound(MembershipString(names, gs));
    FromBinary(MembershipString(names, gs))
  }

  /** Bit `N - 1 - p` of the bitmap is set exactly for the groups of `gs`. */
  lemma CodeBits(names: seq<string>, gs: set<string>, p: nat)
    requires p < |names|
    ensures Bit(Code(names, gs), |names| - 1 - p) <==> names[p] in gs
  {
    var ms := MembershipString(names, gs);
    FromBinaryRoundTrip(ms);
    FixedBinaryAt(Code(names, gs), |names|, p);
    MembershipAt(names, gs, p);
  }

  function ItemCode(table: seq<Row>, names: seq<string>, it: string): nat
  {
    Code(names, GroupsOf(table, it))
  }

  /** Every item of the table lands in a region: its bitmap is not zero, and its
      key says, group by group, whether a row pairs the item with that group. */
  lemma ItemKey(table: seq<Row>, it: string)
    requires it in ItemSet(table)
    ensures var names := SortedGroupNames(table);
      var c := ItemCode(table, names, it);
      1 <= c < Pow2(|names|) && IsKey(Key(c, |names|), |names|)
      && forall p :: 0 <= p < |names| ==> (Key(c, |names|)[p] == '1' <==> Row(it, names[p]) in table)
  {
    var names := SortedGroupNames(table);
    var gs := GroupsOf(table, it);
    var ms := MembershipString(names, gs);
    var c := Code(names, gs);
    NamesAreGroups(table);
    var row :| row in table && row.item == it;
    assert row.group in Elems(names);
    var q :| 0 <= q < |names| && names[q] == row.group;
    MembershipAt(names, gs, q);
    if c == 0 {
      FromBinaryRoundTrip(ms);
      FixedBinaryZero(|names|);
      assert false;
    }
    KeyRoundTrip(c, |names|);
    KeyIsFixedBinary(c, |names|);
    FromBinaryRoundTrip(ms);
    forall p | 0 <= p < |names|
      ensures Key(c, |names|)[p] == '1' <==> Row(it, names[p]) in table
    {
      MembershipAt(names, gs, p);
      assert names[p] in gs <==> Row(it, names[p]) in table;
    }
  }

  /** How many of `items` have bitmap `c`: the value `bitmapCounter` holds. */
  function CountIn(table: seq<Row>, names: seq<string>, items: seq<string>, c: nat): nat
  {
    if items == [] then 0
    else CountIn(table, names, items[..|items| - 1], c)
         + (if ItemCode(table, names, items[|items| - 1]) == c then 1 else 0)
  }

  ghost function Region(table: seq<Row>, names: seq<string>, items: seq<string>, c: nat): set<string>
  {
    set it | it in items && ItemCode(table, names, it) == c
  }

  /** The count of a bitmap is the size of its region, whatever the item order. */
  lemma {:induction false} CountIsRegionSize(table: seq<Row>, names: seq<string>, items: seq<string>, c: nat)
    requires NoDuplicates(items)
    ensures CountIn(table, names, items, c) == |Region(table, names, items, c)|
  {
    if items != [] {
      var p := items[..|items| - 1];
      var x := items[|items| - 1];
      assert items == p + [x];
      CountIsRegionSize(table, names, p, c);
      assert x !in p;
      if ItemCode(table, names, x) == c {
        assert Region(table, names, items, c) == Region(table, names, p, c) + {x};
      } else {
        assert Region(table, names, items, c) == Region(table, names, p, c);
      }
    }
  }

  /** `count` for codes `1 .. hi - 1` added up. */
  function SumCounts(table: seq<Row>, names: seq<string>, items: seq<string>, hi: nat): nat
  {
    if hi <= 1 then 0 else SumCounts(table, names, items, hi - 1) + CountIn(table, names, items, hi - 1)
  }

  lemma {:induction false} SumCountsSnoc(table: seq<Row>, names: seq<string>, items: seq<string>, x: string, hi: nat)
    ensures SumCounts(table, names, items + [x], hi)
         == SumCounts(table, names, items, hi) + (if 1 <= ItemCode(table, names, x) < hi then 1 else 0)
  {
    assert (items + [x])[..|items + [x]| - 1] == items;
    if hi > 1 {
      SumCountsSnoc(table, names, items, x, hi - 1);
    }
  }

  lemma {:induction false} SumOverItems(table: seq<Row>, items: seq<string>)
    requires forall it :: it in items ==> it in ItemSet(table)
    ensures var names := SortedGroupNames(table);
      SumCounts(table, names, items, Pow2(|names|)) == |items|
  {
    var names := SortedGroupNames(table);
    if items != [] {
      var p := items[..|items| - 1];
      var x := items[|items| - 1];
      assert items == p + [x];
      assert x in items;
      SumOverItems(table, p);
      SumCountsSnoc(table, names, p, x, Pow2(|names|));
      ItemKey(table, x);
      assert 1 <= ItemCode(table, names, x) < Pow2(|names|);
    } else {
      SumCountsEmpty(table, names, Pow2(|names|));
    }
  }

  lemma {:induction false} SumCountsEmpty(table: seq<Row>, names: seq<string>, hi: nat)
    ensures SumCounts(table, names, [], hi) == 0
  {
    if hi > 1 {
      SumCountsEmpty(table, names, hi - 1);
    }
  }

  /** The regions partition the items: the counts of all labelled regions add
      up to `totalItems`. */
  lemma RegionsPartitionItems(table: seq<Row>)
    ensures var names := SortedGroupNames(table);
      SumCounts(table, names, ItemOrder(table), Pow2(|names|)) == |ItemOrder(table)| == |ItemSet(table)|
  {
    SumOverItems(table, ItemOrder(table));
    DistinctSize(ItemOrder(table));
  }

  /** `format.replace(/([{](?:number|percent|logic)[}])/g, ...)`: the three
      tokens become the key, the count and the percentage; everything else is
      copied. */
  function FormatLabel(format: string, key: string, count: nat, total: nat): string
    decreases |format|
  {
    if format == [] then []
    else if StartsWith(format, "{logic}") then key + FormatLabel(format[7..], key, count, total)
    else if StartsWith(format, "{number}") then DecimalString(count) + FormatLabel(format[8..], key, count, total)
    else if StartsWith(format, "{percent}") then PercentText(count, total) + FormatLabel(format[9..], key, count, total)
    else [format[0]] + FormatLabel(format[1..], key, count, total)
  }

  /** A format without `{` is its own label. */
  lemma {:induction false} FormatPlain(format: string, key: string, count: nat, total: nat)
    requires '{' !in format
    ensures FormatLabel(format, key, count, total) == format
  {
    if format != [] {
      assert format[0] in format;
      NoTokenAtPlainChar(format, "{logic}");
      NoTokenAtPlainChar(format, "{number}");
      NoTokenAtPlainChar(format, "{percent}");
      var rest := format[1..];
      assert forall c :: c in rest ==> c in format;
      FormatPlain(rest, key, count, total);
      assert [format[0]] + rest == format;
    }
  }

  /** A format that does not start with `{` does not start with a token. */
  lemma NoTokenAtPlainChar(format: string, token: string)
    requires format != [] && format[0] != '{' && token != [] && token[0] == '{'
    ensures !StartsWith(format, token)
  {
    if |token| <= |format| {
      assert format[..|token|][0] == format[0];
    }
  }

  /** One of the three tokens starts at position `i` of `format`. */
  predicate TokenAt(format: string, i: nat)
    requires i <= |format|
  {
    var s := format[i..];
    StartsWith(s, "{logic}") || StartsWith(s, "{number}") || StartsWith(s, "{percent}")
  }

  /** A format in which no token starts anywhere, stray braces included, is its own label. */
  lemma {:induction false} FormatNoToken(format: string, key: string, count: nat, total: nat)
    requires forall i :: 0 <= i < |format| ==> !TokenAt(format, i)
    ensures FormatLabel(format, key, count, total) == format
  {
    if format != [] {
      assert !TokenAt(format, 0) && format[0..] == format;
      var rest := format[1..];
      forall i | 0 <= i < |rest|
        ensures !TokenAt(rest, i)
      {
        assert rest[i..] == format[i + 1..];
        assert !TokenAt(format, i + 1);
      }
      FormatNoToken(rest, key, count, total);
      assert [format[0]] + rest == format;
    }
  }

  /** Text without `{` in front of a format is copied, and the format after it is filled as usual. */
  lemma {:induction false} FormatPrefix(prefix: string, format: string, key: string, count: nat, total: nat)
    requires '{' !in prefix
    ensures FormatLabel(prefix + format, key, count, total) == prefix + FormatLabel(format, key, count, total)
  {
    if prefix != [] {
      var rest, tail := prefix[1..], FormatLabel(format, key, count, total);
      PrefixStep(prefix, format, key, count, total);
      FormatPrefix(rest, format, key, count, total);
      assert [prefix[0]] + rest == prefix;
      assert [prefix[0]] + (rest + tail) == prefix + tail;
    } else {
      assert prefix + format == format;
    }
  }

  /** The first character of a prefix without `{` is copied, and the rest is still without `{`. */
  lemma PrefixStep(prefix: string, format: string, key: string, count: nat, total: nat)
    requires prefix != [] && '{' !in prefix
    ensures '{' !in prefix[1..]
    ensures FormatLabel(prefix + format, key, count, total)
         == [prefix[0]] + FormatLabel(prefix[1..] + format, key, count, total)
  {
    assert forall c :: c in prefix[1..] ==> c in prefix;
    assert (prefix + format)[0] == prefix[0] && prefix[0] in prefix;
    assert (prefix + format)[1..] == prefix[1..] + format;
    PlainCharCopied(prefix + format, key, count, total);
  }

  /** A first character other than `{` is copied. */
  lemma PlainCharCopied(format: string, key: string, count: nat, total: nat)
    requires format != [] && format[0] != '{'
    ensures FormatLabel(format, key, count, total) == [format[0]] + FormatLabel(format[1..], key, count, total)
  {
    NoTokenAtPlainChar(format, "{logic}");
    NoTokenAtPlainChar(format, "{number}");
    NoTokenAtPlainChar(format, "{percent}");
  }

  /** Text after a token is kept: `{number} items` is the count followed by ` items`. */
  lemma NumberThenText(key: string, count: nat, total: nat)
    ensures FormatLabel("{number} items", key, count, total) == DecimalString(count) + " items"
  {
    var f := "{number} items";
    assert f[..7][1] != "{logic}"[1];
    assert StartsWith(f, "{number}") && f[8..] == " items";
    FormatPlain(" items", key, count, total);
  }

  /** A brace that starts no token is copied: `{x}` is its own label. */
  lemma StrayBraceCopied(key: string, count: nat, total: nat)
    ensures FormatLabel("{x}", key, count, total) == "{x}"
  {
    var f := "{x}";
    assert !TokenAt(f, 0) by { assert |f| < 7; }
    FormatNoToken(f, key, count, total);
  }

  /** With the default format `{number}` a label reads back as its count. */
  lemma NumberLabelRoundTrip(key: string, count: nat, total: nat)
    ensures ParseInt(FormatLabel("{number}", key, count, total)) == Some(count)
  {
    var f := "{number}";
    assert f[..7][1] != "{logic}"[1];
    assert StartsWith(f, "{number}") && f[8..] == [];
    assert FormatLabel(f, key, count, total) == DecimalString(count) + [];
    assert DecimalString(count) + [] == DecimalString(count);
    ParseIntDecimal(count);
  }

  /** With `{logic}` a label is its region's key. */
  lemma LogicLabel(key: string, count: nat, total: nat)
    ensures FormatLabel("{logic}", key, count, total) == key
  {
    var f := "{logic}";
    assert StartsWith(f, "{logic}") && f[7..] == [];
    assert FormatLabel(f, key, count, total) == key + [];
  }

  /** One of three items is `33.3` percent. */
  lemma PercentLabel()
    ensures FormatLabel("{percent}", "01", 1, 3) == "33.3"
  {
    var f := "{percent}";
    assert f[..7][1] != "{logic}"[1];
    assert f[..8][1] != "{number}"[1];
    assert StartsWith(f, "{percent}") && f[9..] == [];
    assert PercentTenths(1, 3) == 333;
    assert DecimalString(33) == "33";
    assert FormatLabel(f, "01", 1, 3) == PercentText(1, 3) + [];
  }

  /** The labels of a table: one per key `1 .. 2^N - 1`, written with the count
      and share of the items whose bitmap is that key's code. */
  ghost function VennLabels(table: seq<Row>, format: string): map<string, string>
  {
    var names := SortedGroupNames(table);
    var items := ItemOrder(table);
    map k | k in KeySet(|names|) :: FormatLabel(format, k, CountIn(table, names, items, FromBinary(k)), |items|)
  }

  /** Every region has a label and nothing else does: `2^N - 1` labels. */
  lemma LabelKeys(table: seq<Row>, format: string, k: string)
    ensures var n := |SortedGroupNames(table)|;
      (k in VennLabels(table, format) <==> IsKey(k, n)) && |VennLabels(table, format).Keys| == Pow2(n) - 1
  {
    var n := |SortedGroupNames(table)|;
    KeySetIsKeys(n, k);
    KeySetSize(n);
    assert VennLabels(table, format).Keys == KeySet(n);
  }

  /** `vennLabelsNames_`: groups the rows by item, sorts the group names,
      builds each item's bitmap, counts the items per bitmap and writes one
      label per key `1 .. 2^N - 1`. */
  method VennLabelsNames(table: seq<Row>, format: string := "{number}")
    returns (labels: map<string, string>, names: seq<string>)
    ensures names == SortedGroupNames(table)
    ensures labels == VennLabels(table, format)
  {
    var groupKeys, itemKeys, itemGroups := OrganizeRows(table);
    names := SortStrings(groupKeys);
    var totalItems := |itemKeys|;
    NamesAreGroups(table);
    var groupBitPosition := BitPositions(names);
    var bitmapCounter := CountBitmaps(table, names, groupBitPosition, itemKeys, itemGroups);
    labels := WriteLabels(table, names, format, bitmapCounter, totalItems);
    LabelsAreVennLabels(table, format, labels);
  }

  /** A map with a label for exactly the keys, each written from its count, is the labels of the table. */
  lemma LabelsAreVennLabels(table: seq<Row>, format: string, labels: map<string, string>)
    requires labels.Keys == KeySet(|SortedGroupNames(table)|)
    requires forall k :: k in labels ==>
               labels[k] == FormatLabel(format, k, CountIn(table, SortedGroupNames(table), ItemOrder(table), FromBinary(k)), |ItemOrder(table)|)
    ensures labels == VennLabels(table, format)
  {
  }

  /** The loop over the rows: the key orders of `groupsMap` and `itemGroups`,
      and the groups of every item in the order they were first given. */
  method OrganizeRows(table: seq<Row>)
    returns (groupKeys: seq<string>, itemKeys: seq<string>, itemGroups: map<string, seq<string>>)
    ensures groupKeys == GroupOrder(table) && itemKeys == ItemOrder(table)
    ensures itemGroups.Keys == Elems(itemKeys)
    ensures forall it :: it in itemGroups ==>
              NoDuplicates(itemGroups[it]) && Elems(itemGroups[it]) == GroupsOf(table, it)
  {
    groupKeys, itemKeys, itemGroups := [], [], map[];
    var i := 0;
    while i < |table|
      invariant 0 <= i <= |table|
      invariant groupKeys == GroupOrder(table[..i])
      invariant itemKeys == ItemOrder(table[..i])
      invariant itemGroups == GroupsByItem(table[..i])
    {
      var row := table[i];
      assert table[..i + 1] == table[..i] + [row];
      if row.group !in groupKeys {
        groupKeys := groupKeys + [row.group];
      }
      itemKeys, itemGroups := AddRow(table[..i], row, itemKeys, itemGroups);
      i := i + 1;
    }
    assert table[..i] == table;
    GroupsByItemAre(table);
  }

  /** One row into `itemGroups`: the item gets a fresh entry the first time it
      is seen, and the group is added to its entry unless already there. */
  method AddRow(prefix: seq<Row>, row: Row, itemKeys: seq<string>, itemGroups: map<string, seq<string>>)
    returns (itemKeys': seq<string>, itemGroups': map<string, seq<string>>)
    requires itemKeys == ItemOrder(prefix) && itemGroups == GroupsByItem(prefix)
    ensures itemKeys' == ItemOrder(prefix + [row]) && itemGroups' == GroupsByItem(prefix + [row])
  {
    ItemOrderSnoc(prefix, row);
    GroupsByItemSnoc(prefix, row);
    GroupsByItemAre(prefix);
    itemKeys', itemGroups' := itemKeys, itemGroups;
    if row.item !in itemGroups' {
      itemKeys' := itemKeys' + [row.item];
      itemGroups' := itemGroups'[row.item := []];
    }
    var groups := itemGroups'[row.item];
    if row.group !in groups {
      itemGroups' := itemGroups'[row.item := groups + [row.group]];
    }
  }

  /** The `itemGroups` map after the rows of `table`. */
  ghost function GroupsByItem(table: seq<Row>): map<string, seq<string>>
  {
    if table == [] then map[]
    else
      var prev := GroupsByItem(table[..|table| - 1]);
      var row := table[|table| - 1];
      var groups := if row.item in prev then prev[row.item] else [];
      prev[row.item := if row.group in groups then groups else groups + [row.group]]
  }

  lemma GroupsByItemSnoc(prefix: seq<Row>, row: Row)
    ensures var prev := GroupsByItem(prefix);
      var groups := if row.item in prev then prev[row.item] else [];
      GroupsByItem(prefix + [row]) == prev[row.item := if row.group in groups then groups else groups + [row.group]]
  {
    var next := prefix + [row];
    assert next[..|prefix|] == prefix && next[|prefix|] == row;
  }

  /** `itemGroups` has an entry for every item and for nothing else. */
  lemma {:induction false} GroupsByItemKeys(table: seq<Row>)
    ensures GroupsByItem(table).Keys == ItemSet(table)
  {
    if table != [] {
      var prefix := table[..|table| - 1];
      var row := table[|table| - 1];
      assert table == prefix + [row];
      GroupsByItemKeys(prefix);
      GroupsByItemSnoc(prefix, row);
      SnocSets(prefix, row);
    }
  }

  /** `itemGroups` has an entry for every item, listing each of its groups once. */
  lemma GroupsByItemAre(table: seq<Row>)
    ensures var m := GroupsByItem(table);
      m.Keys == Elems(ItemOrder(table))
      && forall it :: it in m ==> NoDuplicates(m[it]) && Elems(m[it]) == GroupsOf(table, it)
  {
    GroupsByItemKeys(table);
    forall it | it in GroupsByItem(table)
      ensures NoDuplicates(GroupsByItem(table)[it]) && Elems(GroupsByItem(table)[it]) == GroupsOf(table, it)
    {
      GroupsByItemEntry(table, it);
    }
  }

  /** The entry of one item lists each of its groups once. */
  lemma {:induction false} GroupsByItemEntry(table: seq<Row>, it: string)
    requires it in GroupsByItem(table)
    ensures NoDuplicates(GroupsByItem(table)[it]) && Elems(GroupsByItem(table)[it]) == GroupsOf(table, it)
  {
    var prefix := table[..|table| - 1];
    var row := table[|table| - 1];
    assert table == prefix + [row];
    GroupsByItemSnoc(prefix, row);
    SnocGroupsOf(prefix, row, it);
    var prev := GroupsByItem(prefix);
    var entry := GroupsByItem(table)[it];
    if it != row.item {
      assert entry == prev[it];
      GroupsByItemEntry(prefix, it);
    } else if it in prev {
      GroupsByItemEntry(prefix, it);
      GroupsOfItem(prev[it], entry, row.group, GroupsOf(prefix, it));
    } else {
      GroupsByItemKeys(prefix);
      assert GroupsOf(prefix, it) == {};
      GroupsOfItem([], entry, row.group, GroupsOf(prefix, it));
    }
  }

  /** A row adds its group to the groups of its own item and to no other. */
  lemma SnocGroupsOf(prefix: seq<Row>, row: Row, it: string)
    ensures GroupsOf(prefix + [row], it) == GroupsOf(prefix, it) + (if it == row.item then {row.group} else {})
  {
    SnocSets(prefix, row);
  }

  /** A row adds its item to the end of the item order unless it is already there. */
  lemma ItemOrderSnoc(prefix: seq<Row>, row: Row)
    ensures ItemOrder(prefix + [row])
         == if row.item in ItemOrder(prefix) then ItemOrder(prefix) else ItemOrder(prefix) + [row.item]
  {
    var next := prefix + [row];
    assert next[..|prefix|] == prefix && next[|prefix|] == row;
  }

  /** The groups of the row's item after `push`ing its group unless already present. */
  lemma GroupsOfItem(groups: seq<string>, groups': seq<string>, group: string, before: set<string>)
    requires NoDuplicates(groups) && Elems(groups) == before
    requires groups' == if group in groups then groups else groups + [group]
    ensures NoDuplicates(groups') && Elems(groups') == before + {group}
  {
  }

  /** `groupBitPosition`: each name mapped to its index. */
  method BitPositions(names: seq<string>) returns (groupBitPosition: map<string, nat>)
    requires StrictlySorted(names)
    ensures forall k :: 0 <= k < |names| ==> names[k] in groupBitPosition && groupBitPosition[names[k]] == k
    ensures forall g :: g in groupBitPosition ==> groupBitPosition[g] < |names| && names[groupBitPosition[g]] == g
  {
    groupBitPosition := map[];
    var j := 0;
    while j < |names|
      invariant 0 <= j <= |names|
      invariant forall k :: 0 <= k < j ==> names[k] in groupBitPosition && groupBitPosition[names[k]] == k
      invariant forall g :: g in groupBitPosition ==> groupBitPosition[g] < j && names[groupBitPosition[g]] == g
    {
      forall k | 0 <= k < j ensures names[k] != names[j] {
        LessIrreflexive(names[k]);
      }
      groupBitPosition := groupBitPosition[names[j] := j];
      j := j + 1;
    }
  }

  /** `bitmapCounter`: for every bitmap that occurs, how many items have it. */
  method CountBitmaps(table: seq<Row>, names: seq<string>, groupBitPosition: map<string, nat>,
                      itemKeys: seq<string>, itemGroups: map<string, seq<string>>)
    returns (bitmapCounter: map<nat, nat>)
    requires StrictlySorted(names) && Elems(names) == GroupSet(table)
    requires forall g :: g in groupBitPosition ==> groupBitPosition[g] < |names| && names[groupBitPosition[g]] == g
    requires forall k :: 0 <= k < |names| ==> names[k] in groupBitPosition
    requires itemGroups.Keys == Elems(itemKeys)
    requires forall it :: it in itemGroups ==> Elems(itemGroups[it]) == GroupsOf(table, it)
    ensures forall c :: c in bitmapCounter ==> bitmapCounter[c] == CountIn(table, names, itemKeys, c)
    ensures forall c :: c !in bitmapCounter ==> CountIn(table, names, itemKeys, c) == 0
  {
    var n := |names|;
    bitmapCounter := map[];
    var t := 0;
    while t < |itemKeys|
      invariant 0 <= t <= |itemKeys|
      invariant forall c :: c in bitmapCounter ==> bitmapCounter[c] == CountIn(table, names, itemKeys[..t], c)
      invariant forall c :: c !in bitmapCounter ==> CountIn(table, names, itemKeys[..t], c) == 0
    {
      var item := itemKeys[t];
      assert item in Elems(itemKeys);
      var groups := itemGroups[item];
      forall g | g in groups ensures g in groupBitPosition {
        assert g in Elems(groups);
        var row :| row in table && row.item == item && row.group == g;
        assert g in Elems(names);
        var k :| 0 <= k < n && names[k] == g;
      }
      var bitmap := ItemBitmap(names, groupBitPosition, groups);
      forall b | 0 <= b < n ensures Bit(bitmap, b) <==> Bit(ItemCode(table, names, item), b) {
        CodeBits(names, GroupsOf(table, item), n - 1 - b);
        assert names[n - 1 - b] in groups <==> names[n - 1 - b] in Elems(groups);
      }
      BitsDetermine(bitmap, ItemCode(table, names, item), n);
      assert itemKeys[..t + 1][..t] == itemKeys[..t];
      bitmapCounter := bitmapCounter[bitmap := (if bitmap in bitmapCounter then bitmapCounter[bitmap] else 0) + 1];
      t := t + 1;
    }
    assert itemKeys[..t] == itemKeys;
  }

  /** The label loop: key `n.toString(2).padStart(N, '0')` for every code
      `1 <= n < 1 << N`, its count defaulting to 0. */
  method WriteLabels(table: seq<Row>, names: seq<string>, format: string,
                     bitmapCounter: map<nat, nat>, totalItems: nat)
    returns (labels: map<string, string>)
    requires forall c :: c in bitmapCounter ==> bitmapCounter[c] == CountIn(table, names, ItemOrder(table), c)
    requires forall c :: c !in bitmapCounter ==> CountIn(table, names, ItemOrder(table), c) == 0
    requires totalItems == |ItemOrder(table)|
    ensures labels.Keys == KeySet(|names|)
    ensures forall k :: k in labels ==>
              labels[k] == FormatLabel(format, k, CountIn(table, names, ItemOrder(table), FromBinary(k)), totalItems)
  {
    var n := |names|;
    ghost var labelOf := (key: string, code: nat) => FormatLabel(format, key, CountIn(table, names, ItemOrder(table), code), totalItems);
    labels := map[];
    var code := 1;
    while code < Pow2(n)
      invariant 1 <= code <= Pow2(n)
      invariant labels == KeyedBelow(n, labelOf, code)
    {
      var key := Key(code, n);
      var count := if code in bitmapCounter then bitmapCounter[code] else 0;
      labels := labels[key := FormatLabel(format, key, count, totalItems)];
      code := code + 1;
    }
    KeyedBelowAre(n, labelOf, code);
    KeysBelowTop(code, n);
  }

  /** The map the label loop has written once it reaches `code`: each key
      below it mapped to `value` of the key and its code. */
  ghost function KeyedBelow(width: nat, value: (string, nat) -> string, code: nat): map<string, string>
  {
    if code <= 1 then map[]
    else
      var key := Key(code - 1, width);
      KeyedBelow(width, value, code - 1)[key := value(key, code - 1)]
  }

  /** The map below `code` has the keys below it, each mapped to the value of its own code. */
  lemma {:induction false} KeyedBelowAre(width: nat, value: (string, nat) -> string, code: nat)
    requires code <= Pow2(width)
    ensures var m := KeyedBelow(width, value, code);
      m.Keys == KeysBelow(code, width) && forall k :: k in m ==> m[k] == value(k, FromBinary(k))
  {
    if code > 1 {
      var key := Key(code - 1, width);
      KeyedBelowAre(width, value, code - 1);
      KeyRoundTrip(code - 1, width);
      var prev := KeyedBelow(width, value, code - 1);
      var m := KeyedBelow(width, value, code);
      forall k | k in m
        ensures m[k] == value(k, FromBinary(k))
      {
        if k != key {
          assert m[k] == prev[k];
        }
      }
    }
  }

  /** The inner `groups.forEach`: sets bit `N - position - 1` for every group
      of one item. */
  method ItemBitmap(names: seq<string>, groupBitPosition: map<string, nat>, groups: seq<string>)
    returns (bitmap: nat)
    requires StrictlySorted(names)
    requires forall g :: g in groupBitPosition ==> groupBitPosition[g] < |names| && names[groupBitPosition[g]] == g
    requires forall g :: g in groups ==> g in groupBitPosition
    ensures bitmap < Pow2(|names|)
    ensures forall p :: 0 <= p < |names| ==> (Bit(bitmap, |names| - 1 - p) <==> names[p] in groups)
  {
    var n := |names|;
    bitmap := 0;
    forall b: nat ensures !Bit(0, b) {
      NoBitsOfZero(b);
    }
    var q := 0;
    while q < |groups|
      invariant 0 <= q <= |groups|
      invariant bitmap < Pow2(n)
      invariant forall p :: 0 <= p < n ==> (Bit(bitmap, n - 1 - p) <==> names[p] in groups[..q])
    {
      var position := groupBitPosition[groups[q]];
      forall p | 0 <= p < n
        ensures Bit(SetBit(bitmap, n - position - 1), n - 1 - p) <==> names[p] in groups[..q + 1]
      {
        SetBitBits(bitmap, n - position - 1, n - 1 - p);
        assert groups[..q + 1] == groups[..q] + [groups[q]];
        if names[p] == groups[q] {
          StrictlyDistinct(names, p, position);
        }
      }
      SetBitBound(bitmap, n - position - 1, n);
      bitmap := SetBit(bitmap, n - position - 1);
      q := q + 1;
    }
    forall p | 0 <= p < n ensures names[p] in groups[..q] <==> names[p] in groups {
      assert groups[..q] == groups;
    }
  }

  lemma SameRowsSameSets(t1: seq<Row>, t2: seq<Row>)
    requires Elems(t1) == Elems(t2)
    ensures GroupSet(t1) == GroupSet(t2) && ItemSet(t1) == ItemSet(t2)
    ensures forall it :: GroupsOf(t1, it) == GroupsOf(t2, it)
  {
    forall r ensures r in t1 <==> r in t2 {
      assert r in t1 <==> r in Elems(t1);
      assert r in t2 <==> r in Elems(t2);
    }
  }

  lemma SameRowsSameCounts(t1: seq<Row>, t2: seq<Row>, names: seq<string>, c: nat)
    requires Elems(t1) == Elems(t2)
    ensures CountIn(t1, names, ItemOrder(t1), c) == CountIn(t2, names, ItemOrder(t2), c)
  {
    SameRowsSameSets(t1, t2);
    var i1, i2 := ItemOrder(t1), ItemOrder(t2);
    CountIsRegionSize(t1, names, i1, c);
    CountIsRegionSize(t2, names, i2, c);
    assert forall it :: it in i1 <==> it in i2 by {
      forall it ensures it in i1 <==> it in i2 {
        assert it in i1 <==> it in Elems(i1);
        assert it in i2 <==> it in Elems(i2);
      }
    }
    assert Region(t1, names, i1, c) == Region(t2, names, i2, c);
  }

  /** The output depends only on which rows the table has: reordering or
      repeating rows changes neither the names nor the labels. */
  lemma RowOrderIrrelevant(t1: seq<Row>, t2: seq<Row>, format: string)
    requires Elems(t1) == Elems(t2)
    ensures SortedGroupNames(t1) == SortedGroupNames(t2)
    ensures VennLabels(t1, format) == VennLabels(t2, format)
  {
    SameRowsSameSets(t1, t2);
    NamesAreGroups(t1);
    NamesAreGroups(t2);
    SortedUnique(SortedGroupNames(t1), SortedGroupNames(t2));
    var names := SortedGroupNames(t1);
    DistinctSize(ItemOrder(t1));
    DistinctSize(ItemOrder(t2));
    forall k | k in KeySet(|names|)
      ensures VennLabels(t1, format)[k] == VennLabels(t2, format)[k]
    {
      SameRowsSameCounts(t1, t2, names, FromBinary(k));
    }
  }
}
