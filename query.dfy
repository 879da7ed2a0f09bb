/**
 * The read side of the component: `getFilteredExpenses` (lines 104-110), `getSummary`
 * (112-133), the date-descending display order (136) and `getMonthOptions` (138-141).
 */
module Query {
  import opened Text
  import opened Seqs
  import opened Records

  /** The filter selects: `'all'` or one tag, `'all'` or one `YYYY-MM` month. */
  datatype CategorySel = AllCategories | OnlyCategory(category: Category)
  datatype MonthSel = AllMonths | OnlyMonth(month: string)
  datatype Criteria = Criteria(category: CategorySel, month: MonthSel)

  /** A record passes when both its category and its month match the selection; under
      `{all, all}` every record passes. */
  predicate Matches(c: Criteria, e: Expense): (b: bool)
    ensures c == Criteria(AllCategories, AllMonths) ==> b
  {
    (c.category.AllCategories? || e.category == c.category.category)
    && (c.month.AllMonths? || MonthOf(e.date) == c.month.month)
  }

  /** `getFilteredExpenses`: no more records than stored, each matching the selection. */
  function FilterExpenses(s: seq<Expense>, c: Criteria): (r: seq<Expense>)
    ensures |r| <= |s|
    ensures forall i :: 0 <= i < |r| ==> Matches(c, r[i])
  {
    Filter(s, (e: Expense) => Matches(c, e))
  }

  /** The filter returns, in their original order, exactly the records that match, each as
      often as it occurs in the input. */
  lemma FilterExpensesSpec(s: seq<Expense>, c: Criteria, x: Expense)
    ensures IsSubsequence(FilterExpenses(s, c), s)
    ensures forall i :: 0 <= i < |FilterExpenses(s, c)| ==> Matches(c, FilterExpenses(s, c)[i])
    ensures multiset(FilterExpenses(s, c))[x] == if Matches(c, x) then multiset(s)[x] else 0
  {
    FilterIsSubsequence(s, (e: Expense) => Matches(c, e));
    FilterCount(s, (e: Expense) => Matches(c, e), x);
  }

  /** Filtering an already filtered list with the same selection changes nothing. */
  lemma FilterExpensesIdempotent(s: seq<Expense>, c: Criteria)
    ensures FilterExpenses(FilterExpenses(s, c), c) == FilterExpenses(s, c)
  {
    FilterIdempotent(s, (e: Expense) => Matches(c, e));
  }

  /** The `{all, all}` selection shows every record. */
  lemma FilterAllIsIdentity(s: seq<Expense>)
    ensures FilterExpenses(s, Criteria(AllCategories, AllMonths)) == s
  {
    FilterKeepsAll(s, (e: Expense) => Matches(Criteria(AllCategories, AllMonths), e));
  }

  /** `reduce((sum, exp) => sum + exp.amount, 0)`, left to right: 0 for no records, and
      positive for records with positive amounts. */
  function Total(s: seq<Expense>): (r: real)
    ensures s == [] ==> r == 0.0
    ensures s != [] && (forall i :: 0 <= i < |s| ==> s[i].amount > 0.0) ==> r > 0.0
  {
    if s == [] then 0.0 else Total(s[..|s| - 1]) + s[|s| - 1].amount
  }

  lemma {:induction false} TotalAppend(a: seq<Expense>, b: seq<Expense>)
    ensures Total(a + b) == Total(a) + Total(b)
  {
    if b == [] {
      assert a + b == a;
    } else {
      assert (a + b)[..|a + b| - 1] == a + b[..|b| - 1];
      TotalAppend(a, b[..|b| - 1]);
    }
  }

  /** A JavaScript object used as a dictionary from keys to sums: its entries in key
      insertion order, which is the order `Object.entries` lists them in. */
  type Entries<K> = seq<(K, real)>

  /** `Object.keys(acc)`. */
  function Keys<K>(acc: Entries<K>): (ks: seq<K>)
    ensures |ks| == |acc| && forall i :: 0 <= i < |acc| ==> ks[i] == acc[i].0
  {
    seq(|acc|, i requires 0 <= i < |acc| => acc[i].0)
  }

  /** `acc[k] || 0`. */
  function ValueOf<K(==)>(acc: Entries<K>, k: K): real {
    if acc == [] then 0.0 else if acc[0].0 == k then acc[0].1 else ValueOf(acc[1..], k)
  }

  /** The sum of all values of the dictionary. */
  function EntriesTotal<K>(acc: Entries<K>): real {
    if acc == [] then 0.0 else acc[0].1 + EntriesTotal(acc[1..])
  }

  /** `acc[k] = (acc[k] || 0) + a`: an existing key keeps its place, a new one goes last,
      so the dictionary grows by at most one entry. */
  function Bump<K(==)>(acc: Entries<K>, k: K, a: real): (r: Entries<K>)
    ensures r != [] && |r| <= |acc| + 1
  {
    if acc == [] then [(k, a)]
    else if acc[0].0 == k then [(k, acc[0].1 + a)] + acc[1..]
    else [acc[0]] + Bump(acc[1..], k, a)
  }

  lemma {:induction false} BumpKeys<K>(acc: Entries<K>, k: K, a: real)
    ensures Keys(Bump(acc, k, a)) == if k in Keys(acc) then Keys(acc) else Keys(acc) + [k]
  {
    if acc != [] && acc[0].0 != k {
      BumpKeys(acc[1..], k, a);
      assert Keys(acc) == [acc[0].0] + Keys(acc[1..]);
      assert Keys(Bump(acc, k, a)) == [acc[0].0] + Keys(Bump(acc[1..], k, a));
    }
  }

  lemma {:induction false} BumpValue<K>(acc: Entries<K>, k: K, a: real, k': K)
    ensures ValueOf(Bump(acc, k, a), k') == ValueOf(acc, k') + if k' == k then a else 0.0
  {
    if acc != [] && acc[0].0 != k {
      BumpValue(acc[1..], k, a, k');
    }
  }

  lemma {:induction false} BumpTotal<K>(acc: Entries<K>, k: K, a: real)
    ensures EntriesTotal(Bump(acc, k, a)) == EntriesTotal(acc) + a
  {
    if acc != [] && acc[0].0 != k {
      BumpTotal(acc[1..], k, a);
    }
  }

  /** `s.reduce((acc, exp) => { acc[key(exp)] = (acc[key(exp)] || 0) + exp.amount; return acc; }, {})`. */
  /** At most one entry per record, and entries exactly when there are records. */
  function Tally<K(==)>(s: seq<Expense>, key: Expense -> K): (r: Entries<K>)
    ensures |r| <= |s|
    ensures s != [] ==> r != []
  {
    if s == [] then []
    else Bump(Tally(s[..|s| - 1], key), key(s[|s| - 1]), s[|s| - 1].amount)
  }

  /** The records whose key is `k`. */
  function Group<K(==)>(s: seq<Expense>, key: Expense -> K, k: K): seq<Expense> {
    Filter(s, (e: Expense) => key(e) == k)
  }

  /** The dictionary's keys are the distinct keys of the records, in order of first occurrence. */
  lemma {:induction false} TallyKeys<K>(s: seq<Expense>, key: Expense -> K)
    ensures Keys(Tally(s, key)) == Distinct(Project(s, key))
  {
    if s != [] {
      var n := |s|;
      var e := s[n - 1];
      assert s == s[..n - 1] + [e];
      TallyKeys(s[..n - 1], key);
      BumpKeys(Tally(s[..n - 1], key), key(e), e.amount);
      ProjectSnoc(s[..n - 1], e, key);
      DistinctSnoc(Project(s[..n - 1], key), key(e));
    }
  }

  /** Tallying a prefix of the records gives a prefix of the keys: a key's place is decided by
      the first record that carries it. */
  lemma TallyKeysPrefix<K>(s: seq<Expense>, key: Expense -> K, k: nat)
    requires k <= |s|
    ensures Keys(Tally(s[..k], key)) <= Keys(Tally(s, key))
  {
    TallyKeys(s, key);
    TallyKeys(s[..k], key);
    ProjectPrefix(s, k, key);
    DistinctPrefix(Project(s, key), k);
  }

  /** The value under each key is the total of the records with that key. */
  lemma {:induction false} TallyValue<K>(s: seq<Expense>, key: Expense -> K, k: K)
    ensures ValueOf(Tally(s, key), k) == Total(Group(s, key, k))
  {
    if s != [] {
      var n := |s|;
      var e := s[n - 1];
      TallyValue(s[..n - 1], key, k);
      BumpValue(Tally(s[..n - 1], key), key(e), e.amount, k);
      assert s == s[..n - 1] + [e];
      FilterAppend(s[..n - 1], [e], (x: Expense) => key(x) == k);
      var tail := Filter([e], (x: Expense) => key(x) == k);
      assert [e][1..] == [];
      assert tail == if key(e) == k then [e] else [];
      TotalAppend(Group(s[..n - 1], key, k), tail);
      assert Total([e]) == e.amount by {
        assert [e][..0] == [];
      }
    }
  }

  /** The values add up to the total of all records. */
  lemma {:induction false} TallyTotal<K>(s: seq<Expense>, key: Expense -> K)
    ensures EntriesTotal(Tally(s, key)) == Total(s)
  {
    if s != [] {
      TallyTotal(s[..|s| - 1], key);
      BumpTotal(Tally(s[..|s| - 1], key), key(s[|s| - 1]), s[|s| - 1].amount);
    }
  }

  /** With distinct keys, looking a key up finds its own entry. */
  lemma {:induction false} ValueAtKey<K>(acc: Entries<K>, i: nat)
    requires NoDups(Keys(acc)) && i < |acc|
    ensures ValueOf(acc, acc[i].0) == acc[i].1
  {
    if i > 0 {
      assert Keys(acc)[0] != Keys(acc)[i];
      assert Keys(acc[1..]) == Keys(acc)[1..];
      ValueAtKey(acc[1..], i - 1);
    }
  }

  /** The entry `Object.entries(acc).sort((a, b) => b[1] - a[1])[0]` picks: the sort is stable,
      so it is the first entry whose value no other entry exceeds. */
  function TopIndex<K>(acc: Entries<K>): (i: nat)
    requires acc != []
    ensures i < |acc|
    ensures forall j :: 0 <= j < |acc| ==> acc[j].1 <= acc[i].1
    ensures forall j :: 0 <= j < i ==> acc[j].1 < acc[i].1
  {
    if |acc| == 1 then 0
    else
      var k := TopIndex(acc[..|acc| - 1]);
      if acc[|acc| - 1].1 > acc[k].1 then |acc| - 1 else k
  }

  /** What `getSummary` returns. `topCategory` is the `[tag, sum]` pair, `['none', 0]` when empty. */
  datatype Summary = Summary(
    total: real,
    byCategory: Entries<Category>,
    byMonth: Entries<string>,
    count: nat,
    avgPerTransaction: real,
    topCategory: (string, real))

  /** `count > 0 ? total / count : 0`. */
  function Average(total: real, count: nat): (avg: real)
    ensures count > 0 ==> avg * (count as real) == total
    ensures count == 0 ==> avg == 0.0
  {
    if count > 0 then total / (count as real) else 0.0
  }

  /** `sortedCategories[0] || ['none', 0]`: `'none'` exactly for an empty breakdown, otherwise
      a sum no entry exceeds. */
  function TopCategory(byCategory: Entries<Category>): (r: (string, real))
    ensures byCategory == [] <==> r.0 == "none"
    ensures forall j :: 0 <= j < |byCategory| ==> byCategory[j].1 <= r.1
  {
    if byCategory == [] then ("none", 0.0)
    else var i := TopIndex(byCategory); (CategoryName(byCategory[i].0), byCategory[i].1)
  }

  /** The summary of an already filtered list: without records, empty breakdowns and
      `'none'` on top; with records, neither. */
  function Summarize(f: seq<Expense>): (r: Summary)
    ensures r.count == |f|
    ensures f == [] <==> r.byCategory == []
    ensures f == [] <==> r.byMonth == []
    ensures f == [] <==> r.topCategory.0 == "none"
  {
    var total := Total(f);
    var byCategory := Tally(f, CategoryOf);
    Summary(total, byCategory, Tally(f, MonthKey), |f|, Average(total, |f|), TopCategory(byCategory))
  }

  /** `getSummary`: the summary of the records the current selection shows; it counts no more
      than are stored, and all of them under `{all, all}`. */
  function GetSummary(s: seq<Expense>, c: Criteria): (r: Summary)
    ensures r.count <= |s|
    ensures c == Criteria(AllCategories, AllMonths) ==> r.count == |s|
  {
    FilterAllIsIdentity(s);
    Summarize(FilterExpenses(s, c))
  }

  /** Total, count and average: the total is the sum over the filtered records, the count their
      number, the average is `Average` of the two (see its contract); and both breakdowns
      partition the total. */
  lemma SummaryTotals(s: seq<Expense>, c: Criteria)
    ensures var f := FilterExpenses(s, c); var sm := GetSummary(s, c);
      && sm.total == Total(f)
      && sm.count == |f|
      && sm.avgPerTransaction == Average(sm.total, sm.count)
      && EntriesTotal(sm.byCategory) == sm.total
      && EntriesTotal(sm.byMonth) == sm.total
  {
    var f := FilterExpenses(s, c);
    var total := Total(f);
    assert GetSummary(s, c) == Summary(total, Tally(f, CategoryOf), Tally(f, MonthKey), |f|,
      Average(total, |f|), TopCategory(Tally(f, CategoryOf)));
    TallyTotal(f, CategoryOf);
    TallyTotal(f, MonthKey);
  }

  /** The breakdowns have one entry per category, resp. month, present among the filtered
      records, no other, and each holds the total of exactly those records. */
  lemma SummaryBreakdowns(s: seq<Expense>, c: Criteria)
    ensures var f := FilterExpenses(s, c); var sm := GetSummary(s, c);
      && NoDups(Keys(sm.byCategory))
      && NoDups(Keys(sm.byMonth))
      && (forall cat :: cat in Keys(sm.byCategory) <==> exists i :: 0 <= i < |f| && f[i].category == cat)
      && (forall m :: m in Keys(sm.byMonth) <==> exists i :: 0 <= i < |f| && MonthOf(f[i].date) == m)
      && (forall i :: 0 <= i < |sm.byCategory| ==>
            sm.byCategory[i].1 == Total(Group(f, CategoryOf, sm.byCategory[i].0)))
      && (forall i :: 0 <= i < |sm.byMonth| ==>
            sm.byMonth[i].1 == Total(Group(f, MonthKey, sm.byMonth[i].0)))
  {
    var f := FilterExpenses(s, c);
    TallyBreakdown(f, CategoryOf);
    TallyBreakdown(f, MonthKey);
  }

  /** A dictionary built by `Tally` has distinct keys, exactly the keys of the records, and
      under each key the total of the records with that key. */
  lemma TallyBreakdown<K>(f: seq<Expense>, key: Expense -> K)
    ensures NoDups(Keys(Tally(f, key)))
    ensures forall k :: k in Keys(Tally(f, key)) <==> exists i :: 0 <= i < |f| && key(f[i]) == k
    ensures forall i :: 0 <= i < |Tally(f, key)| ==>
      Tally(f, key)[i].1 == Total(Group(f, key, Tally(f, key)[i].0))
  {
    var t := Tally(f, key);
    TallyKeys(f, key);
    var p := Project(f, key);
    forall k ensures k in Keys(t) <==> exists i :: 0 <= i < |f| && key(f[i]) == k {
      if k in Keys(t) {
        var j :| 0 <= j < |Distinct(p)| && Distinct(p)[j] == k;
        assert k in p;
      } else {
        forall i | 0 <= i < |f| ensures key(f[i]) != k {
          assert p[i] in Distinct(p);
        }
      }
    }
    forall i | 0 <= i < |t| ensures t[i].1 == Total(Group(f, key, t[i].0)) {
      ValueAtKey(t, i);
      TallyValue(f, key, t[i].0);
    }
  }

  /** `topCategory` is `['none', 0]` exactly when nothing is shown; otherwise it is a
      `byCategory` entry whose sum no other entry exceeds, and every entry inserted before it
      has a strictly smaller sum (ties go to the category met first). */
  lemma SummaryTop(s: seq<Expense>, c: Criteria)
    ensures var sm := GetSummary(s, c); var bc := sm.byCategory;
      && (bc == [] <==> sm.count == 0)
      && (bc == [] ==> sm.topCategory == ("none", 0.0))
      && (bc != [] ==> exists i :: (0 <= i < |bc| && sm.topCategory == (CategoryName(bc[i].0), bc[i].1)
            && (forall j :: 0 <= j < |bc| ==> bc[j].1 <= bc[i].1)
            && (forall j :: 0 <= j < i ==> bc[j].1 < bc[i].1)))
  {
    var f := FilterExpenses(s, c);
    TallyKeys(f, CategoryOf);
    var bc := GetSummary(s, c).byCategory;
    if f != [] {
      assert Project(f, CategoryOf)[0] in Distinct(Project(f, CategoryOf));
    }
    if bc != [] {
      var i := TopIndex(bc);
      assert GetSummary(s, c).topCategory == (CategoryName(bc[i].0), bc[i].1);
    }
  }

  /** The summary of an empty selection. */
  lemma SummaryOfNothing(c: Criteria)
    ensures GetSummary([], c) == Summary(0.0, [], [], 0, 0.0, ("none", 0.0))
  {
  }

  /** The list as displayed: the filtered records sorted by date, most recent first.
      Dates are `YYYY-MM-DD` strings, whose string order is their calendar order. */
  function DisplayOrder(s: seq<Expense>, c: Criteria): (r: seq<Expense>)
    ensures multiset(r) == multiset(FilterExpenses(s, c))
    ensures forall i, j :: 0 <= i < j < |r| ==> LexLe(r[j].date, r[i].date)
  {
    SortDesc(FilterExpenses(s, c), DateOf)
  }

  /** The identity on strings, used as a sort key. */
  function Identity(m: string): string { m }

  /** Sorted by the identity key and duplicate-free means strictly descending. */
  lemma StrictlyDescending(r: seq<string>)
    requires SortedDesc(r, Identity) && NoDups(r)
    ensures forall i, j :: 0 <= i < j < |r| ==> LexLe(r[j], r[i]) && r[j] != r[i]
  {
    forall i, j | 0 <= i < j < |r| ensures LexLe(r[j], r[i]) {
      assert LexLe(Identity(r[j]), Identity(r[i]));
    }
  }

  /** The distinct months are those some record falls in. */
  lemma MonthsPresent(s: seq<Expense>)
    ensures forall m :: m in Distinct(Project(s, MonthKey)) <==>
      exists i :: 0 <= i < |s| && MonthOf(s[i].date) == m
  {
    var p := Project(s, MonthKey);
    forall m ensures m in Distinct(p) <==> exists i :: 0 <= i < |s| && MonthOf(s[i].date) == m {
      if m in Distinct(p) {
        var j :| 0 <= j < |Distinct(p)| && Distinct(p)[j] == m;
        assert m in p;
        var i :| 0 <= i < |p| && p[i] == m;
        assert MonthOf(s[i].date) == m;
      } else {
        forall i | 0 <= i < |s| ensures MonthOf(s[i].date) != m {
          assert p[i] in Distinct(p);
        }
      }
    }
  }

  /** `getMonthOptions`: every month that some stored record falls in, once each, latest first. */
  function MonthOptions(s: seq<Expense>): (r: seq<string>)
    ensures forall m :: m in r <==> exists i :: 0 <= i < |s| && MonthOf(s[i].date) == m
    ensures NoDups(r)
    ensures forall i, j :: 0 <= i < j < |r| ==> LexLe(r[j], r[i]) && r[j] != r[i]
  {
    var months := Distinct(Project(s, MonthKey));
    var r := SortDesc(months, Identity);
    PermutationKeepsNoDups(months, r);
    PermutationKeepsMembers(months, r);
    MonthsPresent(s);
    StrictlyDescending(r);
    r
  }

  /** Two of the demo records seeded at start-up. */
  function TwoRecords(): seq<Expense> {
    [ Expense(1, 450.0, "2025-10-05", "Grocery shopping at D-Mart", Food),
      Expense(2, 1200.0, "2025-10-04", "Monthly internet bill", Bills) ]
  }

  /** Their summary: total 1650 over 2 records, average 825, `bills` on top. */
  lemma TwoRecordsSummary()
    ensures var sm := GetSummary(TwoRecords(), Criteria(AllCategories, AllMonths));
      sm.total == 1650.0 && sm.count == 2 && sm.avgPerTransaction == 825.0
      && sm.topCategory == ("bills", 1200.0)
  {
    var s := TwoRecords();
    FilterAllIsIdentity(s);
    assert s[..1][..0] == [];
    assert Total(s) == 1650.0;
    var bc := Tally(s, CategoryOf);
    assert Tally(s[..1], CategoryOf) == [(Food, 450.0)];
    assert Bump([(Food, 450.0)], Bills, 1200.0) == [(Food, 450.0), (Bills, 1200.0)] by {
      assert [(Food, 450.0)][1..] == [];
    }
    assert bc == [(Food, 450.0), (Bills, 1200.0)];
    assert bc[..1] == [(Food, 450.0)];
    assert TopIndex(bc) == 1;
  }

  /** Selecting `food` keeps only the grocery record. */
  lemma TwoRecordsFoodFilter()
    ensures FilterExpenses(TwoRecords(), Criteria(OnlyCategory(Food), AllMonths)) == TwoRecords()[..1]
  {
    var s := TwoRecords();
    assert s[1..][1..] == [];
  }
}
