/** The monthly history (components/MonthlyReportTab.tsx): posted records
    grouped by the "YYYY-MM" prefix of their date, each group with its
    totals, newest month first; the RAI edit; and the grand totals. */
module MonthlyReport {
  import opened Seqs
  import opened Text
  import opened Types
  import opened Constants
  import Civil

  /** One month of the report. `monthName` is None where MonthlyReportTab.tsx reads
      past the month table (`undefined`). */
  datatype MonthGroup = MonthGroup(
    monthYear: string,
    monthName: Option<string>,
    year: string,
    totalHours: int,
    totalValue: int,
    count: nat,
    items: seq<WorkRecord>)

  // ---------------------------------------------------------------------
  // The month key of a record

  /** `const [year, month] = date.split('-')`: the first field. */
  function YearOf(date: string): string
  {
    Split(date, '-')[0]
  }

  /** The second field, None when the date has no '-' (`undefined`). */
  function MonthField(date: string): Option<string>
  {
    var fields := Split(date, '-');
    if |fields| >= 2 then Some(fields[1]) else None
  }

  /** `${year}-${month}`; a missing month prints as "undefined". */
  function MonthKey(date: string): string
  {
    YearOf(date) + "-" + MonthField(date).GetOr("undefined")
  }

  /** `MONTH_NAMES[parseInt(month) - 1]`, None when that is `undefined`. */
  function MonthNameOf(month: Option<string>): (r: Option<string>)
    ensures r.Some? ==> r.value in MONTH_NAMES
  {
    if month.None? then None
    else
      match ParseInt(month.value, 10)
      case Some(m) => if 1 <= m <= 12 then Some(MONTH_NAMES[m - 1]) else None
      case None => None
  }

  /** The grouping key of the report. */
  function MonthOf(r: WorkRecord): string
  {
    MonthKey(r.date)
  }

  /** The grouping below is stated for any key function `key`; the report
      uses MonthOf. */
  function KeyIs(key: WorkRecord -> string, k: string): WorkRecord -> bool
  {
    (r: WorkRecord) => key(r) == k
  }

  function Duration(r: WorkRecord): int { r.duration }
  function Value(r: WorkRecord): int { r.value }
  function One(r: WorkRecord): int { 1 }

  // ---------------------------------------------------------------------
  // The grouping, as a specification

  predicate HasKey(rs: seq<WorkRecord>, key: WorkRecord -> string, k: string)
  {
    exists i :: 0 <= i < |rs| && key(rs[i]) == k
  }

  predicate Distinct(ks: seq<string>)
  {
    forall i, j :: 0 <= i < j < |ks| ==> ks[i] != ks[j]
  }

  /** The keys in the order their first record appears: the order in which
      the report's dictionary receives them. */
  function Keys(rs: seq<WorkRecord>, key: WorkRecord -> string): (ks: seq<string>)
    ensures Distinct(ks)
    ensures forall k :: k in ks <==> HasKey(rs, key, k)
  {
    if rs == [] then []
    else
      var init := rs[..|rs| - 1];
      var ks0 := Keys(init, key);
      var k := key(rs[|rs| - 1]);
      assert forall k' :: HasKey(rs, key, k') <==> HasKey(init, key, k') || k' == k by {
        forall k' ensures HasKey(rs, key, k') <==> HasKey(init, key, k') || k' == k {
          if HasKey(init, key, k') {
            var i :| 0 <= i < |init| && key(init[i]) == k';
            assert rs[i] == init[i];
          }
          if HasKey(rs, key, k') && k' != k {
            var i :| 0 <= i < |rs| && key(rs[i]) == k';
            assert init[i] == rs[i];
          }
        }
      }
      if k in ks0 then ks0 else ks0 + [k]
  }

  /** A fresh group of key `k`, headed by the record that opens it. */
  function NewGroup(r: WorkRecord, k: string): MonthGroup
  {
    MonthGroup(k, MonthNameOf(MonthField(r.date)), YearOf(r.date), 0, 0, 0, [])
  }

  /** One step of the `forEach`: the totals grow and the record is pushed. */
  function AddTo(g: MonthGroup, r: WorkRecord): MonthGroup
  {
    g.(totalHours := g.totalHours + r.duration,
       totalValue := g.totalValue + r.value,
       count := g.count + 1,
       items := g.items + [r])
  }

  /** The header of the group of key `k`: from its first record, if any. */
  function Opened(head: Option<WorkRecord>, k: string): MonthGroup
  {
    if head.Some? then NewGroup(head.value, k) else MonthGroup(k, None, "", 0, 0, 0, [])
  }

  /** The group of key `k` over all of `rs`: headed by its first record,
      holding its records in input order with their sums and count. */
  function GroupOf(rs: seq<WorkRecord>, key: WorkRecord -> string, k: string): MonthGroup
  {
    Filled(Opened(Find(rs, KeyIs(key, k)), k), Filter(rs, KeyIs(key, k)))
  }

  /** A group header holding `items`, with their sums and count. */
  function Filled(head: MonthGroup, items: seq<WorkRecord>): MonthGroup
  {
    head.(totalHours := SumOf(items, Duration), totalValue := SumOf(items, Value),
          count := |items|, items := items)
  }

  lemma FilledAppend(head: MonthGroup, items: seq<WorkRecord>, r: WorkRecord)
    ensures Filled(head, items + [r]) == AddTo(Filled(head, items), r)
  {
    assert [r][1..] == [];
    SumOfAppend(items, [r], Duration);
    SumOfAppend(items, [r], Value);
  }

  function GroupAt(rs: seq<WorkRecord>, key: WorkRecord -> string): string -> MonthGroup
  {
    (k: string) => GroupOf(rs, key, k)
  }

  /** `Object.values(groups)` before sorting. */
  function GroupedBy(rs: seq<WorkRecord>, key: WorkRecord -> string): seq<MonthGroup>
  {
    Map(Keys(rs, key), GroupAt(rs, key))
  }

  /** The report's groups, by month. */
  function Grouped(rs: seq<WorkRecord>): seq<MonthGroup>
  {
    GroupedBy(rs, MonthOf)
  }

  /** Adding a record changes only the group of its own key. */
  lemma GroupStep(rs: seq<WorkRecord>, key: WorkRecord -> string, r: WorkRecord, k: string)
    ensures GroupOf(rs + [r], key, k) ==
            if key(r) != k then GroupOf(rs, key, k)
            else AddTo(if HasKey(rs, key, k) then GroupOf(rs, key, k) else NewGroup(r, k), r)
  {
    if key(r) != k {
      GroupStepOther(rs, key, r, k);
    } else if HasKey(rs, key, k) {
      GroupStepExisting(rs, key, r, k);
    } else {
      GroupStepNew(rs, key, r, k);
    }
  }

  lemma GroupStepOther(rs: seq<WorkRecord>, key: WorkRecord -> string, r: WorkRecord, k: string)
    requires key(r) != k
    ensures GroupOf(rs + [r], key, k) == GroupOf(rs, key, k)
  {
    ItemsStep(rs, key, r, k);
    HeadStep(rs, key, r, k);
    var items := Filter(rs, KeyIs(key, k));
    assert items + [] == items;
  }

  lemma GroupStepExisting(rs: seq<WorkRecord>, key: WorkRecord -> string, r: WorkRecord, k: string)
    requires key(r) == k && HasKey(rs, key, k)
    ensures GroupOf(rs + [r], key, k) == AddTo(GroupOf(rs, key, k), r)
  {
    var p := KeyIs(key, k);
    ItemsStep(rs, key, r, k);
    HeadStep(rs, key, r, k);
    FilledAppend(Opened(Find(rs, p), k), Filter(rs, p), r);
  }

  lemma GroupStepNew(rs: seq<WorkRecord>, key: WorkRecord -> string, r: WorkRecord, k: string)
    requires key(r) == k && !HasKey(rs, key, k)
    ensures GroupOf(rs + [r], key, k) == AddTo(NewGroup(r, k), r)
  {
    var p := KeyIs(key, k);
    ItemsStep(rs, key, r, k);
    HeadStep(rs, key, r, k);
    FilterDropsAll(rs, p);
    assert Filter(rs + [r], p) == [] + [r];
    FilledAppend(NewGroup(r, k), [], r);
    assert Filled(NewGroup(r, k), []) == NewGroup(r, k);
  }

  lemma ItemsStep(rs: seq<WorkRecord>, key: WorkRecord -> string, r: WorkRecord, k: string)
    ensures Filter(rs + [r], KeyIs(key, k)) == Filter(rs, KeyIs(key, k)) + if key(r) == k then [r] else []
  {
    FilterAppend(rs, [r], KeyIs(key, k));
    assert [r][1..] == [];
  }

  lemma HeadStep(rs: seq<WorkRecord>, key: WorkRecord -> string, r: WorkRecord, k: string)
    ensures Find(rs + [r], KeyIs(key, k)) ==
            if HasKey(rs, key, k) then Find(rs, KeyIs(key, k)) else if key(r) == k then Some(r) else None
  {
    var p := KeyIs(key, k);
    FindAppend(rs, [r], p);
    assert [r][1..] == [];
    if HasKey(rs, key, k) {
      var i :| 0 <= i < |rs| && key(rs[i]) == k;
      assert p(rs[i]);
    }
  }

  // ---------------------------------------------------------------------
  // Sorting, newest month first

  /** Insertion into a list sorted by key, descending; before the first
      element whose key is not greater, so the sort is stable. */
  function Insert(g: MonthGroup, s: seq<MonthGroup>): (r: seq<MonthGroup>)
    ensures multiset(r) == multiset(s) + multiset{g}
  {
    if s == [] || !Less(g.monthYear, s[0].monthYear) then [g] + s
    else
      assert s == [s[0]] + s[1..];
      [s[0]] + Insert(g, s[1..])
  }

  /** `sort((a, b) => b.monthYear.localeCompare(a.monthYear))`. */
  function SortDesc(gs: seq<MonthGroup>): (r: seq<MonthGroup>)
    ensures multiset(r) == multiset(gs)
  {
    if gs == [] then []
    else
      assert gs == [gs[0]] + gs[1..];
      Insert(gs[0], SortDesc(gs[1..]))
  }

  /** Keys strictly decrease along the list; so they are also distinct. */
  predicate Descending(s: seq<MonthGroup>)
  {
    forall i, j :: 0 <= i < j < |s| ==> Less(s[j].monthYear, s[i].monthYear)
  }

  lemma {:induction false} InsertDescending(g: MonthGroup, s: seq<MonthGroup>)
    requires Descending(s)
    requires forall x :: x in s ==> x.monthYear != g.monthYear
    ensures Descending(Insert(g, s))
  {
    if s == [] {
    } else if !Less(g.monthYear, s[0].monthYear) {
      LessTotal(g.monthYear, s[0].monthYear);
      var r := [g] + s;
      forall i, j | 0 <= i < j < |r| ensures Less(r[j].monthYear, r[i].monthYear) {
        if i == 0 && j > 1 {
          LessTransitive(s[j - 1].monthYear, s[0].monthYear, g.monthYear);
        }
      }
    } else {
      var t := Insert(g, s[1..]);
      InsertDescending(g, s[1..]);
      var r := [s[0]] + t;
      forall i, j | 0 <= i < j < |r| ensures Less(r[j].monthYear, r[i].monthYear) {
        if i == 0 {
          assert r[j] in multiset(t);
          assert r[j] == g || r[j] in s[1..];
        }
      }
    }
  }

  /** Groups with distinct keys come out strictly descending by key. */
  lemma {:induction false} SortDescDescending(gs: seq<MonthGroup>)
    requires forall i, j :: 0 <= i < j < |gs| ==> gs[i].monthYear != gs[j].monthYear
    ensures Descending(SortDesc(gs))
  {
    if gs != [] {
      SortDescDescending(gs[1..]);
      forall x | x in SortDesc(gs[1..]) ensures x.monthYear != gs[0].monthYear {
        assert x in multiset(gs[1..]);
        var j :| 0 <= j < |gs[1..]| && gs[1..][j] == x;
        assert gs[j + 1] == x;
      }
      InsertDescending(gs[0], SortDesc(gs[1..]));
    }
  }

  lemma {:induction false} InsertSum(g: MonthGroup, s: seq<MonthGroup>, f: MonthGroup -> int)
    ensures SumOf(Insert(g, s), f) == f(g) + SumOf(s, f)
  {
    if s != [] && Less(g.monthYear, s[0].monthYear) {
      InsertSum(g, s[1..], f);
      assert ([s[0]] + Insert(g, s[1..]))[1..] == Insert(g, s[1..]);
    } else {
      assert ([g] + s)[1..] == s;
    }
  }

  /** Sorting does not change a sum over the groups. */
  lemma {:induction false} SortDescSum(gs: seq<MonthGroup>, f: MonthGroup -> int)
    ensures SumOf(SortDesc(gs), f) == SumOf(gs, f)
  {
    if gs != [] {
      SortDescSum(gs[1..], f);
      InsertSum(gs[0], SortDesc(gs[1..]), f);
    }
  }

  // ---------------------------------------------------------------------
  // The grouping loop

  /** The dictionary the `forEach` has built after the records `rs`: the
      group of every key seen so far. */
  function Dictionary(rs: seq<WorkRecord>, key: WorkRecord -> string): (d: map<string, MonthGroup>)
    ensures forall k :: k in d <==> k in Keys(rs, key)
  {
    map k | k in Keys(rs, key) :: GroupOf(rs, key, k)
  }

  /** One step of the `forEach` adds the record to its key's group, opening
      that group first when the key is new. */
  lemma DictionaryStep(rs: seq<WorkRecord>, key: WorkRecord -> string, r: WorkRecord)
    ensures var d := Dictionary(rs, key);
            Dictionary(rs + [r], key) ==
            d[key(r) := AddTo(if key(r) in d then d[key(r)] else NewGroup(r, key(r)), r)]
  {
    var d := Dictionary(rs, key);
    var d' := d[key(r) := AddTo(if key(r) in d then d[key(r)] else NewGroup(r, key(r)), r)];
    var e := Dictionary(rs + [r], key);
    KeysStep(rs, key, r);
    assert forall k :: k in e <==> k in d';
    forall k | k in d' ensures d'[k] == e[k] {
      DictionaryEntry(rs, key, r, k);
    }
    assert e == d';
  }

  /** DictionaryStep for one key. */
  lemma DictionaryEntry(rs: seq<WorkRecord>, key: WorkRecord -> string, r: WorkRecord, k: string)
    requires k in Keys(rs, key) || k == key(r)
    ensures var d := Dictionary(rs, key);
            var d' := d[key(r) := AddTo(if key(r) in d then d[key(r)] else NewGroup(r, key(r)), r)];
            d'[k] == GroupOf(rs + [r], key, k)
  {
    GroupStep(rs, key, r, k);
  }

  lemma KeysStep(rs: seq<WorkRecord>, key: WorkRecord -> string, r: WorkRecord)
    ensures Keys(rs + [r], key) ==
            if key(r) in Keys(rs, key) then Keys(rs, key) else Keys(rs, key) + [key(r)]
  {
    assert (rs + [r])[..|rs|] == rs;
  }

  /** The loop step of FillGroups, on the dictionary and key order so far. */
  lemma FillStep(records: seq<WorkRecord>, i: nat, groups: map<string, MonthGroup>, order: seq<string>)
    requires i < |records|
    requires groups == Dictionary(records[..i], MonthOf) && order == Keys(records[..i], MonthOf)
    ensures var r := records[i];
            var key := MonthOf(r);
            var group := if key in groups then groups[key] else NewGroup(r, key);
            groups[key := AddTo(group, r)] == Dictionary(records[..i + 1], MonthOf) &&
            (if key in groups then order else order + [key]) == Keys(records[..i + 1], MonthOf)
  {
    var r := records[i];
    var f: WorkRecord -> string := MonthOf;
    assert f(r) == MonthOf(r);
    assert records[..i + 1] == records[..i] + [r];
    DictionaryStep(records[..i], MonthOf, r);
    KeysStep(records[..i], MonthOf, r);
  }

  /** The `forEach` of the `monthlyData` memo: every record is added to the
      group of its month, a group being opened on its month's first record;
      `order` records the order in which the dictionary receives its keys. */
  method FillGroups(records: seq<WorkRecord>) returns (groups: map<string, MonthGroup>, order: seq<string>)
    ensures groups == Dictionary(records, MonthOf) && order == Keys(records, MonthOf)
  {
    groups := map[];
    order := [];
    for i := 0 to |records|
      invariant groups == Dictionary(records[..i], MonthOf) && order == Keys(records[..i], MonthOf)
    {
      FillStep(records, i, groups, order);
      var r := records[i];
      var key := MonthOf(r);
      var group: MonthGroup;
      if key in groups {
        group := groups[key];
      } else {
        group := NewGroup(r, key);
        order := order + [key];
      }
      groups := groups[key := AddTo(group, r)];
    }
    assert records[..|records|] == records;
  }

  /** The `monthlyData` memo: the dictionary's values, in insertion order,
      sorted newest month first. */
  method MonthlyData(records: seq<WorkRecord>) returns (result: seq<MonthGroup>)
    ensures result == SortDesc(Grouped(records))
  {
    var groups, order := FillGroups(records);
    var values := seq(|order|, j requires 0 <= j < |order| => groups[order[j]]);
    assert values == Grouped(records);
    result := SortDesc(values);
  }

  // ---------------------------------------------------------------------
  // What the report promises

  /** The groups have distinct keys, newest month first. */
  lemma MonthlyDataDescending(records: seq<WorkRecord>)
    ensures Descending(SortDesc(Grouped(records)))
  {
    SortDescDescending(Grouped(records));
  }

  /** What each group holds: exactly the records of its key, in input order,
      at least one, with their count and sums; its month name and year are
      read from its first record. */
  predicate GroupHolds(records: seq<WorkRecord>, key: WorkRecord -> string, g: MonthGroup)
  {
    g.items == Filter(records, KeyIs(key, g.monthYear)) && g.items != [] &&
    g.count == |g.items| &&
    g.totalHours == SumOf(g.items, Duration) && g.totalValue == SumOf(g.items, Value) &&
    g.monthName == MonthNameOf(MonthField(g.items[0].date)) && g.year == YearOf(g.items[0].date)
  }

  lemma GroupedHold(records: seq<WorkRecord>, key: WorkRecord -> string, j: nat)
    requires j < |Keys(records, key)|
    ensures GroupHolds(records, key, GroupedBy(records, key)[j])
  {
    var k := Keys(records, key)[j];
    assert HasKey(records, key, k);
    var i :| 0 <= i < |records| && key(records[i]) == k;
    assert KeyIs(key, k)(records[i]);
    FindIsFirstOfFilter(records, KeyIs(key, k));
  }

  lemma SortedGroupsHold(records: seq<WorkRecord>, key: WorkRecord -> string)
    ensures forall g :: g in SortDesc(GroupedBy(records, key)) ==> GroupHolds(records, key, g)
  {
    forall g | g in SortDesc(GroupedBy(records, key)) ensures GroupHolds(records, key, g) {
      assert g in multiset(GroupedBy(records, key));
      var j :| 0 <= j < |Keys(records, key)| && GroupedBy(records, key)[j] == g;
      GroupedHold(records, key, j);
    }
  }

  /** Every group of the report holds exactly the records of its month, in
      input order, at least one, with their count and sums, and takes its
      month name and year from its first record. */
  lemma MonthlyDataGroups(records: seq<WorkRecord>)
    ensures forall g :: g in SortDesc(Grouped(records)) ==>
              g.items == Filter(records, KeyIs(MonthOf, g.monthYear)) && g.items != [] &&
              g.count == |g.items| &&
              g.totalHours == SumOf(g.items, Duration) && g.totalValue == SumOf(g.items, Value) &&
              g.monthName == MonthNameOf(MonthField(g.items[0].date)) &&
              g.year == YearOf(g.items[0].date)
  {
    SortedGroupsHold(records, MonthOf);
  }

  /** Sorting loses no group. */
  lemma SortDescKeeps(gs: seq<MonthGroup>, g: MonthGroup)
    requires g in gs
    ensures g in SortDesc(gs)
  {
    assert g in multiset(gs);
  }

  lemma RecordsGrouped(records: seq<WorkRecord>, key: WorkRecord -> string)
    ensures forall i :: 0 <= i < |records| ==>
              exists g :: g in SortDesc(GroupedBy(records, key)) &&
                          g.monthYear == key(records[i]) && records[i] in g.items
  {
    var gs := SortDesc(GroupedBy(records, key));
    forall i | 0 <= i < |records|
      ensures exists g :: g in gs && g.monthYear == key(records[i]) && records[i] in g.items
    {
      RecordInItsGroup(records, key, i);
      SortDescKeeps(GroupedBy(records, key), GroupOf(records, key, key(records[i])));
    }
  }

  /** A record lies in the group of its own key. */
  lemma RecordInItsGroup(records: seq<WorkRecord>, key: WorkRecord -> string, i: nat)
    requires i < |records|
    ensures var g := GroupOf(records, key, key(records[i]));
            g in GroupedBy(records, key) && g.monthYear == key(records[i]) && records[i] in g.items
  {
    var k := key(records[i]);
    assert HasKey(records, key, k);
    var j :| 0 <= j < |Keys(records, key)| && Keys(records, key)[j] == k;
    assert GroupedBy(records, key)[j] == GroupOf(records, key, k);
    assert KeyIs(key, k)(records[i]);
  }

  lemma GroupsHaveOneKey(records: seq<WorkRecord>, key: WorkRecord -> string)
    ensures forall g, x :: g in SortDesc(GroupedBy(records, key)) && x in g.items ==>
              key(x) == g.monthYear
  {
    var gs := SortDesc(GroupedBy(records, key));
    SortedGroupsHold(records, key);
    forall g, x | g in gs && x in g.items ensures key(x) == g.monthYear {
      assert GroupHolds(records, key, g);
      var n :| 0 <= n < |g.items| && g.items[n] == x;
    }
  }

  /** Every record lies in the group of its own month, and every record of a
      group has that group's month; with distinct keys, that is exactly one
      group per record. */
  lemma EveryRecordGrouped(records: seq<WorkRecord>)
    ensures forall i :: 0 <= i < |records| ==>
              exists g :: g in SortDesc(Grouped(records)) &&
                          g.monthYear == MonthOf(records[i]) && records[i] in g.items
    ensures forall g, x :: g in SortDesc(Grouped(records)) && x in g.items ==>
              MonthOf(x) == g.monthYear
  {
    var gs := SortDesc(Grouped(records));
    var f: WorkRecord -> string := MonthOf;
    RecordsGrouped(records, MonthOf);
    GroupsHaveOneKey(records, MonthOf);
    forall i | 0 <= i < |records|
      ensures exists g :: g in gs && g.monthYear == MonthOf(records[i]) && records[i] in g.items
    {
      assert f(records[i]) == MonthOf(records[i]);
    }
    forall g, x | g in gs && x in g.items ensures MonthOf(x) == g.monthYear {
      assert f(x) == MonthOf(x);
    }
  }

  /** The fields of a date "YYYY-MM-DD" split on '-'. */
  lemma SplitDate(date: string)
    requires Civil.ParseDate(date).Some?
    ensures var f := Split(date, '-');
            |f| >= 2 && f[0] == date[..4] && f[1] == date[5..7]
  {
    var y, m, d := date[..4], date[5..7], date[8..];
    assert date == y + ['-'] + (m + ['-'] + d);
    assert '-' !in y by { assert forall c :: c in y ==> IsDigitIn(c, 10); }
    assert '-' !in m by { assert forall c :: c in m ==> IsDigitIn(c, 10); }
    SplitFirst(y, '-', m + ['-'] + d);
    SplitFirst(m, '-', d);
  }

  /** The month key of a date is its "YYYY-MM" prefix. */
  lemma MonthKeyOfDate(date: string)
    requires Civil.ParseDate(date).Some?
    ensures MonthKey(date) == date[..7]
  {
    SplitDate(date);
    assert date[..7] == date[..4] + "-" + date[5..7];
  }

  /** The month field of a valid date reads as its month number. */
  lemma MonthDigits(date: string)
    requires Civil.ParseDate(date).Some?
    ensures ParseInt(date[5..7], 10) == Some(Civil.ParseDate(date).value.month)
  {
    ParseIntDigits(date[5..7], 10);
  }

  /** The month name of a valid date is the table entry of its month number. */
  lemma MonthNameOfDate(date: string)
    requires Civil.ParseDate(date).Some?
    ensures MonthNameOf(MonthField(date)) == Some(MONTH_NAMES[Civil.ParseDate(date).value.month - 1])
  {
    var m := Civil.ParseDate(date).value.month;
    assert 1 <= m <= 12;
    SplitDate(date);
    assert MonthField(date) == Some(date[5..7]);
    MonthDigits(date);
  }

  /** The year field of a valid date is its first four characters. */
  lemma YearOfDate(date: string)
    requires Civil.ParseDate(date).Some?
    ensures YearOf(date) == date[..4]
  {
    SplitDate(date);
  }

  /** A group named after its first record's month in the table, and
      carrying that record's four-digit year. */
  predicate NamedByMonth(g: MonthGroup)
  {
    g.items != [] && Civil.ParseDate(g.items[0].date).Some? &&
    g.monthName == Some(MONTH_NAMES[Civil.ParseDate(g.items[0].date).value.month - 1]) &&
    g.year == g.items[0].date[..4]
  }

  lemma GroupNamedByMonth(records: seq<WorkRecord>, g: MonthGroup)
    requires forall i :: 0 <= i < |records| ==> Civil.ParseDate(records[i].date).Some?
    requires GroupHolds(records, MonthOf, g)
    ensures NamedByMonth(g)
  {
    var r := g.items[0];
    assert r in records;
    var i :| 0 <= i < |records| && records[i] == r;
    MonthNameOfDate(r.date);
    YearOfDate(r.date);
  }

  /** When every date is valid, each report group is named after its month
      in the table and carries its year's four digits. */
  lemma GroupMonthNames(records: seq<WorkRecord>)
    requires forall i :: 0 <= i < |records| ==> Civil.ParseDate(records[i].date).Some?
    ensures forall g :: g in SortDesc(Grouped(records)) ==> NamedByMonth(g)
  {
    SortedGroupsHold(records, MonthOf);
    forall g | g in SortDesc(Grouped(records)) ensures NamedByMonth(g) {
      GroupNamedByMonth(records, g);
    }
  }

  // ---------------------------------------------------------------------
  // Totals

  function ItemsSum(h: WorkRecord -> int): MonthGroup -> int
  {
    (g: MonthGroup) => SumOf(g.items, h)
  }

  /** The sum over the groups of `ks` of their records' `h`. */
  function KeyedSum(ks: seq<string>, rs: seq<WorkRecord>, key: WorkRecord -> string, h: WorkRecord -> int): int
  {
    if ks == [] then 0 else SumOf(Filter(rs, KeyIs(key, ks[0])), h) + KeyedSum(ks[1..], rs, key, h)
  }

  lemma {:induction false} KeyedSumStep(ks: seq<string>, rs: seq<WorkRecord>, key: WorkRecord -> string,
                                        r: WorkRecord, h: WorkRecord -> int)
    requires Distinct(ks)
    ensures KeyedSum(ks, rs + [r], key, h) == KeyedSum(ks, rs, key, h) + (if key(r) in ks then h(r) else 0)
  {
    if ks != [] {
      var p := KeyIs(key, ks[0]);
      FilterAppend(rs, [r], p);
      assert Filter([r], p) == if p(r) then [r] else [] by { assert [r][1..] == []; }
      SumOfAppend(Filter(rs, p), Filter([r], p), h);
      assert [r][1..] == [];
      assert Distinct(ks[1..]);
      KeyedSumStep(ks[1..], rs, key, r, h);
      assert ks == [ks[0]] + ks[1..];
    }
  }

  lemma {:induction false} KeyedSumAppend(ks: seq<string>, k: string, rs: seq<WorkRecord>,
                                          key: WorkRecord -> string, h: WorkRecord -> int)
    ensures KeyedSum(ks + [k], rs, key, h) == KeyedSum(ks, rs, key, h) + SumOf(Filter(rs, KeyIs(key, k)), h)
  {
    if ks == [] {
      assert ([k])[1..] == [];
    } else {
      assert (ks + [k])[1..] == ks[1..] + [k];
      KeyedSumAppend(ks[1..], k, rs, key, h);
    }
  }

  /** Summing group by group is summing over all records. */
  lemma {:induction false} KeyedSumAll(rs: seq<WorkRecord>, key: WorkRecord -> string, h: WorkRecord -> int)
    ensures KeyedSum(Keys(rs, key), rs, key, h) == SumOf(rs, h)
  {
    if rs != [] {
      var init := rs[..|rs| - 1];
      var r := rs[|rs| - 1];
      assert rs == init + [r];
      KeyedSumAll(init, key, h);
      SumOfAppend(init, [r], h);
      assert [r][1..] == [];
      var k := key(r);
      KeyedSumStep(Keys(init, key), init, key, r, h);
      KeysStep(init, key, r);
      if k !in Keys(init, key) {
        KeyedSumAppend(Keys(init, key), k, rs, key, h);
        NewKeySum(init, key, r, h);
      }
    }
  }

  /** The records of a key first seen at `r` are `r` alone. */
  lemma NewKeySum(init: seq<WorkRecord>, key: WorkRecord -> string, r: WorkRecord, h: WorkRecord -> int)
    requires key(r) !in Keys(init, key)
    ensures SumOf(Filter(init + [r], KeyIs(key, key(r))), h) == h(r)
  {
    var p := KeyIs(key, key(r));
    FilterAppend(init, [r], p);
    forall i | 0 <= i < |init| ensures !p(init[i]) {
      assert HasKey(init, key, key(init[i]));
    }
    FilterDropsAll(init, p);
    assert [r][1..] == [];
    assert Filter([r], p) == [r];
    assert [] + [r] == [r];
  }

  lemma {:induction false} GroupedSum(ks: seq<string>, rs: seq<WorkRecord>, key: WorkRecord -> string,
                                      h: WorkRecord -> int)
    ensures SumOf(Map(ks, GroupAt(rs, key)), ItemsSum(h)) == KeyedSum(ks, rs, key, h)
  {
    if ks != [] {
      GroupedSum(ks[1..], rs, key, h);
      assert Map(ks, GroupAt(rs, key))[1..] == Map(ks[1..], GroupAt(rs, key));
    }
  }

  /** `records.reduce((a, c) => a + c.duration, 0)`. */
  function GrandHours(records: seq<WorkRecord>): int
  {
    SumOf(records, Duration)
  }

  /** `records.reduce((a, c) => a + c.value, 0)`. */
  function GrandValue(records: seq<WorkRecord>): int
  {
    SumOf(records, Value)
  }

  function TotalHours(g: MonthGroup): int { g.totalHours }
  function TotalValue(g: MonthGroup): int { g.totalValue }
  function Count(g: MonthGroup): int { g.count }

  lemma {:induction false} SumOfOnes(s: seq<WorkRecord>)
    ensures SumOf(s, One) == |s|
  {
    if s != [] {
      SumOfOnes(s[1..]);
    }
  }

  /** The grand totals are the sums of the group totals, and the group
      counts add up to the number of records. */
  lemma GrandTotalsMatchGroups(records: seq<WorkRecord>)
    ensures var gs := SortDesc(Grouped(records));
            SumOf(gs, TotalHours) == GrandHours(records) &&
            SumOf(gs, TotalValue) == GrandValue(records) &&
            SumOf(gs, Count) == |records|
  {
    var gs := SortDesc(Grouped(records));
    SortedGroupsHold(records, MonthOf);
    forall i | 0 <= i < |gs|
      ensures TotalHours(gs[i]) == ItemsSum(Duration)(gs[i])
      ensures TotalValue(gs[i]) == ItemsSum(Value)(gs[i])
      ensures Count(gs[i]) == ItemsSum(One)(gs[i])
    {
      assert gs[i] in gs;
      assert GroupHolds(records, MonthOf, gs[i]);
      SumOfOnes(gs[i].items);
    }
    SumOfCongruent(gs, TotalHours, ItemsSum(Duration));
    SumOfCongruent(gs, TotalValue, ItemsSum(Value));
    SumOfCongruent(gs, Count, ItemsSum(One));
    GroupSums(records, MonthOf, Duration);
    GroupSums(records, MonthOf, Value);
    GroupSums(records, MonthOf, One);
    SumOfOnes(records);
  }

  /** Summing `h` over each group's records and then over the groups is
      summing `h` over all records. */
  lemma GroupSums(records: seq<WorkRecord>, key: WorkRecord -> string, h: WorkRecord -> int)
    ensures SumOf(SortDesc(GroupedBy(records, key)), ItemsSum(h)) == SumOf(records, h)
  {
    SortDescSum(GroupedBy(records, key), ItemsSum(h));
    GroupedSum(Keys(records, key), records, key, h);
    KeyedSumAll(records, key, h);
  }

  // ---------------------------------------------------------------------
  // The RAI edit

  /** saveRai: the record with its RAI number replaced by the upper-cased,
      trimmed input; the update itself is AppState.UpdateMonthlyRecord. */
  function SaveRai(rec: WorkRecord, tempRai: string): (r: WorkRecord)
    ensures r == rec.(raiNumber := r.raiNumber)
    ensures r.raiNumber.Some?
  {
    rec.(raiNumber := Some(Trim(ToUpper(tempRai))))
  }

  /** The stored number is already upper-case and trimmed. */
  lemma SaveRaiNormalises(rec: WorkRecord, tempRai: string)
    ensures var s := SaveRai(rec, tempRai).raiNumber.value;
            ToUpper(s) == s && Trim(s) == s
  {
    ToUpperIdempotent(tempRai);
    TrimKeepsUpper(ToUpper(tempRai));
    TrimIdempotent(ToUpper(tempRai));
  }

  /** Opening the editor on a saved number and saving it unchanged leaves the
      record as it was (startEditRai preloads the stored number). */
  lemma SaveRaiIdempotent(rec: WorkRecord, tempRai: string)
    ensures var r := SaveRai(rec, tempRai);
            SaveRai(r, r.raiNumber.GetOr("")) == r
  {
    SaveRaiNormalises(rec, tempRai);
  }
}
