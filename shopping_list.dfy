/** The shopping-list export: the ingredient rows of every recipe in a user's
    cart, grouped by (ingredient name, measurement unit), summed, ordered by
    name, and rendered one line per group. */
module ShoppingList {
  import opened Text
  import opened Models

  /** One IngredientInRecipe row after the join with its ingredient. */
  datatype Item = Item(name: string, unit: string, amount: int)

  /** The grouping key of the query: (ingredient__name, ingredient__measurement_unit). */
  datatype Key = Key(name: string, unit: string)

  /** One group of the query's result, with its summed amount. */
  datatype Entry = Entry(name: string, unit: string, total: int)

  function KeyOf(it: Item): Key { Key(it.name, it.unit) }

  function EntryKey(e: Entry): Key { Key(e.name, e.unit) }

  /** Order by name, then by unit. */
  predicate KeyBelow(a: Key, b: Key)
  {
    Below(a.name, b.name) || (a.name == b.name && Below(a.unit, b.unit))
  }

  lemma KeyBelowIrreflexive(a: Key)
    ensures !KeyBelow(a, a)
  {
    BelowIrreflexive(a.name);
    BelowIrreflexive(a.unit);
  }

  lemma KeyBelowTransitive(a: Key, b: Key, c: Key)
    requires KeyBelow(a, b) && KeyBelow(b, c)
    ensures KeyBelow(a, c)
  {
    if Below(a.name, b.name) && Below(b.name, c.name) { BelowTransitive(a.name, b.name, c.name); }
    if a.name == b.name == c.name {
      BelowIrreflexive(a.name);
      BelowTransitive(a.unit, b.unit, c.unit);
    }
  }

  lemma KeyBelowTotal(a: Key, b: Key)
    ensures a == b || KeyBelow(a, b) || KeyBelow(b, a)
  {
    BelowTotal(a.name, b.name);
    BelowTotal(a.unit, b.unit);
  }

  lemma KeyBelowAsymmetric(a: Key, b: Key)
    requires KeyBelow(a, b)
    ensures !KeyBelow(b, a)
  {
    if KeyBelow(b, a) {
      KeyBelowTransitive(a, b, a);
      KeyBelowIrreflexive(a);
    }
  }

  /** Strictly increasing keys: every group occurs once, in order. */
  ghost predicate Ascending(report: seq<Entry>)
  {
    forall i, j | 0 <= i < j < |report| :: KeyBelow(EntryKey(report[i]), EntryKey(report[j]))
  }

  /** Names never decrease down the report. */
  ghost predicate SortedByName(report: seq<Entry>)
  {
    forall i, j | 0 <= i < j < |report| :: report[i].name == report[j].name || Below(report[i].name, report[j].name)
  }

  // ---------------------------------------------------------------------
  // The reference meaning: which groups exist and what each one sums to

  /** The keys that occur among the rows. */
  function Keys(items: seq<Item>): set<Key>
  {
    set it | it in items :: KeyOf(it)
  }

  /** The sum of the amounts of the rows with key `k`. */
  function Total(items: seq<Item>, k: Key): int
  {
    if items == [] then 0
    else Total(items[..|items| - 1], k) + (if KeyOf(items[|items| - 1]) == k then items[|items| - 1].amount else 0)
  }

  /** The total a report shows for key `k`, if it has a line for it. */
  function Find(report: seq<Entry>, k: Key): Option<int>
  {
    if report == [] then None
    else if EntryKey(report[0]) == k then Some(report[0].total)
    else Find(report[1..], k)
  }

  function FindOrZero(report: seq<Entry>, k: Key): int
  {
    match Find(report, k)
    case None => 0
    case Some(t) => t
  }

  // ---------------------------------------------------------------------
  // The aggregation

  /** Add one row to an ordered report: into its group if there is one,
      otherwise as a new group at its place in the order. */
  function Insert(report: seq<Entry>, it: Item): (r: seq<Entry>)
    ensures |report| <= |r| <= |report| + 1
  {
    if report == [] then [Entry(it.name, it.unit, it.amount)]
    else if EntryKey(report[0]) == KeyOf(it) then [report[0].(total := report[0].total + it.amount)] + report[1..]
    else if KeyBelow(KeyOf(it), EntryKey(report[0])) then [Entry(it.name, it.unit, it.amount)] + report
    else [report[0]] + Insert(report[1..], it)
  }

  /** `.values(name, unit).annotate(amount=Sum('amount')).order_by(name)` over
      the rows, taken in the order the store delivers them. */
  function Aggregate(items: seq<Item>): (report: seq<Entry>)
    ensures |report| <= |items|
    ensures report == [] <==> items == []
  {
    if items == [] then [] else Insert(Aggregate(items[..|items| - 1]), items[|items| - 1])
  }

  function ReportKeys(report: seq<Entry>): set<Key>
  {
    set e | e in report :: EntryKey(e)
  }

  lemma AscendingCons(e: Entry, rest: seq<Entry>)
    requires Ascending(rest)
    requires forall k | k in ReportKeys(rest) :: KeyBelow(EntryKey(e), k)
    ensures Ascending([e] + rest)
  {
    var r := [e] + rest;
    forall i, j | 0 <= i < j < |r| ensures KeyBelow(EntryKey(r[i]), EntryKey(r[j])) {
      if i == 0 {
        assert r[j] == rest[j - 1];
        assert EntryKey(rest[j - 1]) in ReportKeys(rest);
      } else {
        assert r[i] == rest[i - 1] && r[j] == rest[j - 1];
      }
    }
  }

  lemma {:induction false} InsertKeys(report: seq<Entry>, it: Item)
    ensures ReportKeys(Insert(report, it)) == ReportKeys(report) + {KeyOf(it)}
  {
    if report == [] {
    } else if EntryKey(report[0]) == KeyOf(it) {
      var h := report[0].(total := report[0].total + it.amount);
      assert report == [report[0]] + report[1..];
      assert ReportKeys(report) == {EntryKey(report[0])} + ReportKeys(report[1..]);
      assert ReportKeys([h] + report[1..]) == {EntryKey(h)} + ReportKeys(report[1..]);
    } else if KeyBelow(KeyOf(it), EntryKey(report[0])) {
      var n := Entry(it.name, it.unit, it.amount);
      assert ReportKeys([n] + report) == {EntryKey(n)} + ReportKeys(report);
    } else {
      InsertKeys(report[1..], it);
      assert report == [report[0]] + report[1..];
      assert ReportKeys(report) == {EntryKey(report[0])} + ReportKeys(report[1..]);
      var tail := Insert(report[1..], it);
      assert ReportKeys([report[0]] + tail) == {EntryKey(report[0])} + ReportKeys(tail);
    }
  }

  lemma {:induction false} InsertAscending(report: seq<Entry>, it: Item)
    requires Ascending(report)
    ensures Ascending(Insert(report, it))
  {
    if report == [] {
    } else if EntryKey(report[0]) == KeyOf(it) {
      var h := report[0].(total := report[0].total + it.amount);
      var r := [h] + report[1..];
      forall i, j | 0 <= i < j < |r| ensures KeyBelow(EntryKey(r[i]), EntryKey(r[j])) {
        assert EntryKey(r[i]) == EntryKey(report[i]) && r[j] == report[j];
      }
    } else if KeyBelow(KeyOf(it), EntryKey(report[0])) {
      var n := Entry(it.name, it.unit, it.amount);
      forall k | k in ReportKeys(report) ensures KeyBelow(EntryKey(n), k) {
        var e :| e in report && EntryKey(e) == k;
        var j :| 0 <= j < |report| && report[j] == e;
        if j > 0 { KeyBelowTransitive(EntryKey(n), EntryKey(report[0]), k); }
      }
      AscendingCons(n, report);
    } else {
      KeyBelowTotal(KeyOf(it), EntryKey(report[0]));
      InsertAscending(report[1..], it);
      InsertKeys(report[1..], it);
      forall k | k in ReportKeys(Insert(report[1..], it)) ensures KeyBelow(EntryKey(report[0]), k) {
        if k != KeyOf(it) {
          var e :| e in report[1..] && EntryKey(e) == k;
          var j :| 0 <= j < |report[1..]| && report[1..][j] == e;
          assert report[j + 1] == e;
        }
      }
      AscendingCons(report[0], Insert(report[1..], it));
    }
  }

  lemma {:induction false} FindAbsent(report: seq<Entry>, k: Key)
    requires k !in ReportKeys(report)
    ensures Find(report, k) == None
  {
    if report != [] {
      assert report[0] in report;
      assert ReportKeys(report[1..]) <= ReportKeys(report);
      FindAbsent(report[1..], k);
    }
  }

  lemma {:induction false} FindPresent(report: seq<Entry>, k: Key)
    requires k in ReportKeys(report)
    ensures Find(report, k).Some?
  {
    if EntryKey(report[0]) != k {
      var e :| e in report && EntryKey(e) == k;
      var j :| 0 <= j < |report| && report[j] == e;
      assert report[1..][j - 1] == e;
      FindPresent(report[1..], k);
    }
  }

  /** Find after `Insert` when the row's key heads the report: that line's
      total grows by the row's amount. */
  lemma InsertFindMerge(report: seq<Entry>, it: Item, k: Key)
    requires report != [] && EntryKey(report[0]) == KeyOf(it)
    ensures Find(Insert(report, it), k) ==
      if KeyOf(it) == k then Some(FindOrZero(report, k) + it.amount) else Find(report, k)
  {
    var head := report[0].(total := report[0].total + it.amount);
    var r := [head] + report[1..];
    assert Insert(report, it) == r;
    assert r[1..] == report[1..];
  }

  /** Find after `Insert` when the row's key goes before the whole report:
      a new line with the row's amount. */
  lemma InsertFindNew(report: seq<Entry>, it: Item, k: Key)
    requires Ascending(report)
    requires report != [] && KeyBelow(KeyOf(it), EntryKey(report[0]))
    ensures Find(Insert(report, it), k) ==
      if KeyOf(it) == k then Some(FindOrZero(report, k) + it.amount) else Find(report, k)
  {
    var r := [Entry(it.name, it.unit, it.amount)] + report;
    KeyBelowIrreflexive(KeyOf(it));
    assert Insert(report, it) == r;
    assert r[1..] == report;
    if KeyOf(it) == k {
      forall e | e in report ensures EntryKey(e) != k {
        var j :| 0 <= j < |report| && report[j] == e;
        if j > 0 { KeyBelowTransitive(k, EntryKey(report[0]), EntryKey(e)); }
        KeyBelowIrreflexive(k);
      }
      FindAbsent(report, k);
    }
  }

  lemma {:induction false} InsertFind(report: seq<Entry>, it: Item, k: Key)
    requires Ascending(report)
    ensures Find(Insert(report, it), k) ==
      if KeyOf(it) == k then Some(FindOrZero(report, k) + it.amount) else Find(report, k)
  {
    if report == [] {
      assert Insert(report, it) == [Entry(it.name, it.unit, it.amount)];
      assert [Entry(it.name, it.unit, it.amount)][1..] == [];
    } else if EntryKey(report[0]) == KeyOf(it) {
      InsertFindMerge(report, it, k);
    } else if KeyBelow(KeyOf(it), EntryKey(report[0])) {
      InsertFindNew(report, it, k);
    } else {
      var r := [report[0]] + Insert(report[1..], it);
      assert Insert(report, it) == r;
      assert r[1..] == Insert(report[1..], it);
      InsertFind(report[1..], it, k);
    }
  }

  /** The aggregation is ordered and shows, for every key of the rows and
      only for those, the sum of that key's amounts. */
  lemma {:induction false} AggregateCorrect(items: seq<Item>)
    ensures Ascending(Aggregate(items))
    ensures forall k :: Find(Aggregate(items), k) == if k in Keys(items) then Some(Total(items, k)) else None
  {
    if items == [] {
      forall k ensures Find(Aggregate(items), k) == None {}
    } else {
      var init, last := items[..|items| - 1], items[|items| - 1];
      AggregateCorrect(init);
      InsertAscending(Aggregate(init), last);
      assert items == init + [last];
      assert Keys(items) == Keys(init) + {KeyOf(last)};
      forall k ensures Find(Aggregate(items), k) == if k in Keys(items) then Some(Total(items, k)) else None {
        InsertFind(Aggregate(init), last, k);
        if k !in Keys(init) { TotalAbsent(init, k); }
      }
    }
  }

  /** The report lists each key at most once and in ascending order of names. */
  lemma AggregateSortedByName(items: seq<Item>)
    ensures SortedByName(Aggregate(items))
  {
    AggregateCorrect(items);
  }

  lemma {:induction false} FindFirst(report: seq<Entry>, k: Key, t: int)
    requires Find(report, k) == Some(t)
    ensures exists j :: 0 <= j < |report| && EntryKey(report[j]) == k && report[j].total == t
  {
    if EntryKey(report[0]) != k {
      FindFirst(report[1..], k, t);
      var j :| 0 <= j < |report[1..]| && EntryKey(report[1..][j]) == k && report[1..][j].total == t;
      assert report[j + 1] == report[1..][j];
    }
  }

  lemma FindSomeIff(report: seq<Entry>, k: Key)
    ensures Find(report, k).Some? <==> k in ReportKeys(report)
  {
    if k in ReportKeys(report) { FindPresent(report, k); } else { FindAbsent(report, k); }
  }

  lemma EmptyReportKeys(report: seq<Entry>)
    ensures ReportKeys(report) == {} <==> report == []
  {
    if report != [] { assert EntryKey(report[0]) in ReportKeys(report); }
  }

  /** Two ordered reports that show the same total for every key are the
      same report. */
  lemma {:induction false} AscendingReportsEqual(a: seq<Entry>, b: seq<Entry>)
    requires Ascending(a) && Ascending(b)
    requires forall k :: Find(a, k) == Find(b, k)
    ensures a == b
  {
    forall k ensures k in ReportKeys(a) <==> k in ReportKeys(b) {
      assert Find(a, k) == Find(b, k);
      FindSomeIff(a, k);
      FindSomeIff(b, k);
    }
    assert ReportKeys(a) == ReportKeys(b);
    EmptyReportKeys(a);
    EmptyReportKeys(b);
    if a != [] && b != [] {
      var ka, kb := EntryKey(a[0]), EntryKey(b[0]);
      FindFirst(b, ka, a[0].total);
      FindFirst(a, kb, b[0].total);
      if ka != kb {
        var j :| 0 <= j < |b| && EntryKey(b[j]) == ka;
        var i :| 0 <= i < |a| && EntryKey(a[i]) == kb;
        assert KeyBelow(kb, ka) && KeyBelow(ka, kb);
        KeyBelowAsymmetric(kb, ka);
      }
      assert a[0] == b[0];
      forall k ensures Find(a[1..], k) == Find(b[1..], k) {
        assert Find(a, k) == Find(b, k);
        if k == ka {
          forall e | e in a[1..] ensures EntryKey(e) != k {
            var j :| 0 <= j < |a[1..]| && a[1..][j] == e;
            assert a[j + 1] == e;
            KeyBelowIrreflexive(k);
          }
          forall e | e in b[1..] ensures EntryKey(e) != k {
            var j :| 0 <= j < |b[1..]| && b[1..][j] == e;
            assert b[j + 1] == e;
            KeyBelowIrreflexive(k);
          }
          FindAbsent(a[1..], k);
          FindAbsent(b[1..], k);
        }
      }
      AscendingReportsEqual(a[1..], b[1..]);
      assert a == [a[0]] + a[1..] && b == [b[0]] + b[1..];
    }
  }

  lemma {:induction false} TotalAppend(p: seq<Item>, q: seq<Item>, k: Key)
    ensures Total(p + q, k) == Total(p, k) + Total(q, k)
    decreases |q|
  {
    if q == [] {
      assert p + q == p;
    } else {
      assert (p + q)[..|p + q| - 1] == p + q[..|q| - 1];
      TotalAppend(p, q[..|q| - 1], k);
    }
  }

  lemma {:induction false} TotalAbsent(items: seq<Item>, k: Key)
    requires k !in Keys(items)
    ensures Total(items, k) == 0
  {
    if items != [] {
      var init := items[..|items| - 1];
      assert Keys(init) <= Keys(items) by {
        forall it | it in init ensures it in items { }
      }
      assert items[|items| - 1] in items;
      TotalAbsent(init, k);
    }
  }

  /** Taking row `j` out of the rows takes its amount out of the sum. */
  lemma TotalRemoveAt(b: seq<Item>, j: nat, k: Key)
    requires j < |b|
    ensures Total(b, k) == Total(b[..j] + b[j + 1..], k) + Total([b[j]], k)
  {
    assert b == b[..j] + [b[j]] + b[j + 1..];
    TotalAppend(b[..j] + [b[j]], b[j + 1..], k);
    TotalAppend(b[..j], [b[j]], k);
    TotalAppend(b[..j], b[j + 1..], k);
  }

  /** Removing the last row of `a` and a matching row `j` of a permutation
      `b` leaves permutations. */
  lemma RemoveMatching(a: seq<Item>, b: seq<Item>, j: nat)
    requires a != [] && multiset(a) == multiset(b)
    requires j < |b| && b[j] == a[|a| - 1]
    ensures multiset(a[..|a| - 1]) == multiset(b[..j] + b[j + 1..])
  {
    var init, b1, b2 := a[..|a| - 1], b[..j], b[j + 1..];
    assert b == b1 + [b[j]] + b2;
    assert a == init + [a[|a| - 1]];
    assert multiset(b1 + b2) == multiset(b1) + multiset(b2);
    forall y ensures multiset(init)[y] == multiset(b1 + b2)[y] {
      assert multiset(a)[y] == multiset(b)[y];
    }
  }

  /** The sum for a key does not depend on the order of the rows. */
  lemma {:induction false} TotalPermutation(a: seq<Item>, b: seq<Item>, k: Key)
    requires multiset(a) == multiset(b)
    ensures Total(a, k) == Total(b, k)
    decreases |a|
  {
    if a == [] {
      assert |b| == |multiset(b)| == 0;
    } else {
      var x := a[|a| - 1];
      assert x in multiset(b);
      var j :| 0 <= j < |b| && b[j] == x;
      RemoveMatching(a, b, j);
      TotalPermutation(a[..|a| - 1], b[..j] + b[j + 1..], k);
      TotalRemoveAt(b, j, k);
      assert [x][..0] == [];
    }
  }

  /** The report does not depend on the order in which the rows arrive,
      hence not on the order in which recipes were put in the cart. */
  lemma AggregatePermutation(a: seq<Item>, b: seq<Item>)
    requires multiset(a) == multiset(b)
    ensures Aggregate(a) == Aggregate(b)
  {
    AggregateCorrect(a);
    AggregateCorrect(b);
    assert forall it :: it in a <==> it in b by {
      forall it ensures it in a <==> it in b {
        assert it in a <==> it in multiset(a);
        assert it in b <==> it in multiset(b);
      }
    }
    assert Keys(a) == Keys(b);
    forall k ensures Find(Aggregate(a), k) == Find(Aggregate(b), k) {
      TotalPermutation(a, b, k);
    }
    AscendingReportsEqual(Aggregate(a), Aggregate(b));
  }

  // ---------------------------------------------------------------------
  // Rendering

  /** f"{name} - {amount} {unit}\n" */
  function EntryLine(e: Entry): (line: string)
    ensures |line| > |e.name| && line[..|e.name|] == e.name
    ensures line[|line| - 1] == '\n'
  {
    e.name + " - " + IntText(e.total) + " " + e.unit + "\n"
  }

  /** The text the `+=` loop accumulates over the report. */
  function Render(report: seq<Entry>): (text: string)
    ensures text == [] <==> report == []
    ensures text != [] ==> text[|text| - 1] == '\n'
  {
    if report == [] then "" else Render(report[..|report| - 1]) + EntryLine(report[|report| - 1])
  }

  /** Two carted recipes that use 200 g and 100 g of flour give one flour
      line of 300 g. */
  lemma FlourScenario()
    ensures Aggregate([Item("flour", "g", 200), Item("flour", "g", 100)]) == [Entry("flour", "g", 300)]
    ensures Render([Entry("flour", "g", 300)]) == "flour - 300 g\n"
  {
    var first := [Item("flour", "g", 200)];
    var items := first + [Item("flour", "g", 100)];
    assert first[..0] == [];
    assert Aggregate(first) == [Entry("flour", "g", 200)];
    assert items[..1] == first;
    assert Aggregate(items) == Insert([Entry("flour", "g", 200)], Item("flour", "g", 100));
    var report := [Entry("flour", "g", 300)];
    assert report[..0] == [];
    assert Render(report) == EntryLine(report[0]);
    assert IntText(300) == "300" by {
      assert Decimal(300) == Decimal(30) + ['0'] == Decimal(3) + ['0'] + ['0'];
    }
  }

  // ---------------------------------------------------------------------
  // The join

  /** Every (recipe, ingredient) row names a stored recipe, one of its
      ingredient lines, and a stored ingredient. */
  ghost predicate RowsResolve(rows: seq<Pair>, recipes: map<int, Recipe>, ingredients: map<int, Ingredient>)
  {
    forall p | p in rows :: p.0 in recipes && p.1 in recipes[p.0].ingredients && p.1 in ingredients
  }

  /** The cart's rows as (recipe id, ingredient id) pairs, each joined with
      its ingredient's name and unit and its amount. */
  function JoinRows(rows: seq<Pair>, recipes: map<int, Recipe>, ingredients: map<int, Ingredient>): (items: seq<Item>)
    requires RowsResolve(rows, recipes, ingredients)
    ensures |items| == |rows|
    ensures forall i | 0 <= i < |rows| ::
      items[i] == Item(ingredients[rows[i].1].name, ingredients[rows[i].1].measurementUnit,
                       recipes[rows[i].0].ingredients[rows[i].1])
  {
    if rows == [] then []
    else
      var p := rows[0];
      [Item(ingredients[p.1].name, ingredients[p.1].measurementUnit, recipes[p.0].ingredients[p.1])]
        + JoinRows(rows[1..], recipes, ingredients)
  }

  /** The (recipe, ingredient) rows of the recipes user `user` has in the cart. */
  ghost predicate InCart(p: Pair, user: int, cart: set<Pair>, recipes: map<int, Recipe>)
  {
    (user, p.0) in cart && p.0 in recipes && p.1 in recipes[p.0].ingredients
  }

  /** `rows` lists every cart row of `user` exactly once, in some order. */
  ghost predicate EnumeratesCart(rows: seq<Pair>, user: int, cart: set<Pair>, recipes: map<int, Recipe>)
  {
    && Distinct(rows)
    && (forall p :: p in rows <==> InCart(p, user, cart, recipes))
  }

  ghost predicate Distinct(s: seq<Pair>)
  {
    forall i, j | 0 <= i < j < |s| :: s[i] != s[j]
  }

  /** In a duplicate-free sequence every element occurs once. */
  lemma {:induction false} DistinctMultiplicity(s: seq<Pair>, p: Pair)
    requires Distinct(s)
    ensures multiset(s)[p] == if p in s then 1 else 0
  {
    if s != [] {
      assert s == [s[0]] + s[1..];
      assert Distinct(s[1..]) by {
        forall i, j | 0 <= i < j < |s[1..]| ensures s[1..][i] != s[1..][j] {
          assert s[1..][i] == s[i + 1] && s[1..][j] == s[j + 1];
        }
      }
      DistinctMultiplicity(s[1..], p);
      assert s[0] !in s[1..] by {
        forall k | 0 <= k < |s[1..]| ensures s[1..][k] != s[0] {
          assert s[1..][k] == s[k + 1];
        }
      }
    }
  }

  /** Two duplicate-free sequences with the same elements are permutations of
      each other. */
  lemma DistinctSameElements(a: seq<Pair>, b: seq<Pair>)
    requires Distinct(a) && Distinct(b)
    requires forall p :: p in a <==> p in b
    ensures multiset(a) == multiset(b)
  {
    forall p ensures multiset(a)[p] == multiset(b)[p] {
      DistinctMultiplicity(a, p);
      DistinctMultiplicity(b, p);
    }
  }

  lemma JoinRowsAppend(p: seq<Pair>, q: seq<Pair>, recipes: map<int, Recipe>, ingredients: map<int, Ingredient>)
    requires RowsResolve(p, recipes, ingredients) && RowsResolve(q, recipes, ingredients)
    ensures RowsResolve(p + q, recipes, ingredients)
    ensures JoinRows(p + q, recipes, ingredients) == JoinRows(p, recipes, ingredients) + JoinRows(q, recipes, ingredients)
  {
    assert forall x | x in p + q :: x in p || x in q;
  }

  /** Rows drawn from resolving rows resolve. */
  lemma RowsResolveSubset(a: seq<Pair>, b: seq<Pair>, recipes: map<int, Recipe>, ingredients: map<int, Ingredient>)
    requires RowsResolve(a, recipes, ingredients)
    requires multiset(b) <= multiset(a)
    ensures RowsResolve(b, recipes, ingredients)
  {
    forall p | p in b ensures p in a {
      assert p in multiset(b);
    }
  }

  /** Taking the first element of `a` out of both sides of a permutation. */
  lemma RemoveFirst(a: seq<Pair>, b: seq<Pair>, j: nat)
    requires a != [] && multiset(a) == multiset(b)
    requires j < |b| && b[j] == a[0]
    ensures b == b[..j] + [a[0]] + b[j + 1..]
    ensures multiset(a[1..]) == multiset(b[..j] + b[j + 1..])
  {
    var b1, b2 := b[..j], b[j + 1..];
    assert b == b1 + [a[0]] + b2;
    assert a == [a[0]] + a[1..];
    assert multiset(b1 + b2) == multiset(b1) + multiset(b2);
    forall y ensures multiset(a[1..])[y] == multiset(b1 + b2)[y] {
      assert multiset(a)[y] == multiset(b)[y];
    }
  }

  /** The pieces around row `j` resolve when the rows do. */
  lemma RowsResolveSplit(b: seq<Pair>, j: nat, recipes: map<int, Recipe>, ingredients: map<int, Ingredient>)
    requires RowsResolve(b, recipes, ingredients) && j < |b|
    ensures b == b[..j] + [b[j]] + b[j + 1..]
    ensures RowsResolve(b[..j], recipes, ingredients)
    ensures RowsResolve([b[j]], recipes, ingredients)
    ensures RowsResolve(b[j + 1..], recipes, ingredients)
  {
    assert b == b[..j] + [b[j]] + b[j + 1..];
  }

  /** Taking row `j` out of the rows takes its item out of the join. */
  lemma JoinRowsRemoveAt(b: seq<Pair>, j: nat, recipes: map<int, Recipe>, ingredients: map<int, Ingredient>)
    requires RowsResolve(b, recipes, ingredients) && j < |b|
    ensures RowsResolve([b[j]], recipes, ingredients)
    ensures RowsResolve(b[..j] + b[j + 1..], recipes, ingredients)
    ensures multiset(JoinRows(b, recipes, ingredients))
         == multiset(JoinRows([b[j]], recipes, ingredients)) + multiset(JoinRows(b[..j] + b[j + 1..], recipes, ingredients))
  {
    RowsResolveSplit(b, j, recipes, ingredients);
    var b1, x, b2 := b[..j], [b[j]], b[j + 1..];
    JoinRowsAppend(b1, x, recipes, ingredients);
    JoinRowsAppend(b1 + x, b2, recipes, ingredients);
    JoinRowsAppend(b1, b2, recipes, ingredients);
  }

  /** The join of non-empty rows is the first row's item followed by the
      join of the others. */
  lemma JoinRowsCons(a: seq<Pair>, recipes: map<int, Recipe>, ingredients: map<int, Ingredient>)
    requires RowsResolve(a, recipes, ingredients) && a != []
    ensures RowsResolve([a[0]], recipes, ingredients) && RowsResolve(a[1..], recipes, ingredients)
    ensures multiset(JoinRows(a, recipes, ingredients))
         == multiset(JoinRows([a[0]], recipes, ingredients)) + multiset(JoinRows(a[1..], recipes, ingredients))
  {
    RowsResolveSplit(a, 0, recipes, ingredients);
    assert [a[0]][1..] == [];
  }

  /** Rows that are permutations of each other join to items that are
      permutations of each other. */
  lemma {:induction false} JoinRowsPermutation(a: seq<Pair>, b: seq<Pair>, recipes: map<int, Recipe>, ingredients: map<int, Ingredient>)
    requires RowsResolve(a, recipes, ingredients)
    requires multiset(a) == multiset(b)
    ensures RowsResolve(b, recipes, ingredients)
    ensures multiset(JoinRows(a, recipes, ingredients)) == multiset(JoinRows(b, recipes, ingredients))
    decreases |a|
  {
    RowsResolveSubset(a, b, recipes, ingredients);
    if a == [] {
      assert |b| == |multiset(b)| == 0;
    } else {
      assert a[0] in multiset(b);
      var j :| 0 <= j < |b| && b[j] == a[0];
      RemoveFirst(a, b, j);
      JoinRowsCons(a, recipes, ingredients);
      JoinRowsRemoveAt(b, j, recipes, ingredients);
      JoinRowsPermutation(a[1..], b[..j] + b[j + 1..], recipes, ingredients);
    }
  }

  /** Every ingredient line of every recipe names a stored ingredient. */
  ghost predicate LinesResolve(recipes: map<int, Recipe>, ingredients: map<int, Ingredient>)
  {
    forall r | r in recipes :: recipes[r].ingredients.Keys <= ingredients.Keys
  }

  lemma CartRowsResolve(rows: seq<Pair>, user: int, cart: set<Pair>,
                        recipes: map<int, Recipe>, ingredients: map<int, Ingredient>)
    requires LinesResolve(recipes, ingredients)
    requires EnumeratesCart(rows, user, cart, recipes)
    ensures RowsResolve(rows, recipes, ingredients)
  {
    forall p | p in rows ensures p.0 in recipes && p.1 in recipes[p.0].ingredients && p.1 in ingredients {
      assert InCart(p, user, cart, recipes);
      var r := p.0;
      assert r in recipes && p.1 in recipes[r].ingredients.Keys;
    }
  }

  /** Any two listings of the same cart give the same shopping-list text. */
  lemma ShoppingListOrderIndependent(rows1: seq<Pair>, rows2: seq<Pair>, user: int, cart: set<Pair>,
                                     recipes: map<int, Recipe>, ingredients: map<int, Ingredient>)
    requires LinesResolve(recipes, ingredients)
    requires EnumeratesCart(rows1, user, cart, recipes) && EnumeratesCart(rows2, user, cart, recipes)
    ensures RowsResolve(rows1, recipes, ingredients) && RowsResolve(rows2, recipes, ingredients)
    ensures Render(Aggregate(JoinRows(rows1, recipes, ingredients))) == Render(Aggregate(JoinRows(rows2, recipes, ingredients)))
  {
    CartRowsResolve(rows1, user, cart, recipes, ingredients);
    DistinctSameElements(rows1, rows2);
    JoinRowsPermutation(rows1, rows2, recipes, ingredients);
    AggregatePermutation(JoinRows(rows1, recipes, ingredients), JoinRows(rows2, recipes, ingredients));
  }

  /** A user with nothing in the cart gets no rows and the empty text. */
  lemma EmptyCartEmptyText(rows: seq<Pair>, user: int, cart: set<Pair>,
                           recipes: map<int, Recipe>, ingredients: map<int, Ingredient>)
    requires EnumeratesCart(rows, user, cart, recipes)
    requires forall p | p in cart :: p.0 != user
    ensures rows == []
    ensures RowsResolve(rows, recipes, ingredients)
    ensures Render(Aggregate(JoinRows(rows, recipes, ingredients))) == ""
  {
    forall p ensures p !in rows {
      assert (user, p.0).0 == user;
    }
    forall p ensures multiset(rows)[p] == 0 {
      assert p !in rows;
    }
    assert multiset(rows) == multiset{};
    assert |rows| == |multiset(rows)|;
  }
}
