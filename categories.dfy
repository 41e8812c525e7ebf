/**
 * The static category tables of the feature engineer: the fine-to-coarse
 * maps for expenses and incomes, the sorted list of coarse categories whose
 * positions are the coarse ids, and the list of all fine categories whose
 * positions are the fine ids.
 */
module Categories {
  import opened Prelude

  /** A string-keyed record, as its entries in insertion order. */
  type Table = seq<(string, string)>

  const COARSE_EXPENSE_MAP: Table := [
    ("Groceries", "Living"),
    ("Rent", "Living"),
    ("Dining", "Leisure"),
    ("Entertainment", "Leisure"),
    ("Travel", "Leisure"),
    ("Merchandise", "Shopping"),
    ("Other", "Other"),
    ("Other Services", "Other")
  ]

  const COARSE_INCOME_MAP: Table := [
    ("Salary", "Regular Income"),
    ("Allowance", "Regular Income"),
    ("Stocks", "Investments"),
    ("Interest & Dividends", "Investments"),
    ("Reimbursements", "Other Income"),
    ("Gifts", "Other Income"),
    ("Sales", "Other Income")
  ]

  function Keys(t: Table): (ks: seq<string>)
    ensures |ks| == |t| && forall i :: 0 <= i < |t| ==> ks[i] == t[i].0
  {
    if t == [] then [] else [t[0].0] + Keys(t[1..])
  }

  function Values(t: Table): (vs: seq<string>)
    ensures |vs| == |t| && forall i :: 0 <= i < |t| ==> vs[i] == t[i].1
  {
    if t == [] then [] else [t[0].1] + Values(t[1..])
  }

  /** `t[k]`, or None where the record has no such key. */
  function Lookup(t: Table, k: string): (r: Option<string>)
    ensures r.Some? <==> k in Keys(t)
    ensures r.Some? ==> r.value in Values(t)
  {
    if t == [] then None else if t[0].0 == k then Some(t[0].1) else Lookup(t[1..], k)
  }

  /** Code-unit order on strings, the order of JavaScript's default sort and of Python's `sorted`. */
  predicate LexLess(a: string, b: string)
  {
    LexLessFrom(a, b, 0)
  }

  predicate LexLessFrom(a: string, b: string, i: nat)
    decreases |a| - i
  {
    if i >= |a| then i < |b|
    else if i >= |b| then false
    else if a[i] != b[i] then a[i] < b[i]
    else LexLessFrom(a, b, i + 1)
  }

  predicate StrictlySorted(s: seq<string>)
  {
    forall i, j :: 0 <= i < j < |s| ==> LexLess(s[i], s[j])
  }

  /** The coarse categories of both maps, without repetition, in sorted order. */
  const COARSE_CATEGORIES: seq<string> := [
    "Investments", "Leisure", "Living", "Other", "Other Income", "Regular Income", "Shopping"
  ]

  /**
   * Every fine category of either map, expense keys first, each once: the
   * de-duplicated keys of both maps (AllCategoriesListed), spelt out.
   */
  const ALL_CATEGORIES: seq<string> := [
    "Groceries", "Rent", "Dining", "Entertainment", "Travel", "Merchandise", "Other",
    "Other Services", "Salary", "Allowance", "Stocks", "Interest & Dividends",
    "Reimbursements", "Gifts", "Sales"]

  /** The coarse id of a coarse category name, its position in COARSE_CATEGORIES. */
  function CoarseToId(c: string): (id: nat)
    requires c in COARSE_CATEGORIES
    ensures id < |COARSE_CATEGORIES| && COARSE_CATEGORIES[id] == c
  {
    IndexOf(COARSE_CATEGORIES, c)
  }

  /**
   * Looks a predicted coarse id up; a number that is not one of the ids
   * finds nothing (JavaScript's `undefined`).
   */
  function IdToCoarse(id: real): (c: Option<string>)
  {
    if id == id.Floor as real && 0 <= id.Floor < |COARSE_CATEGORIES|
    then Some(COARSE_CATEGORIES[id.Floor])
    else None
  }

  /** The fine id of a known fine category, its position in `order`. */
  function CategoryToId(order: seq<string>, c: string): (id: nat)
    requires c in order
    ensures id < |order| && order[id] == c
  {
    IndexOf(order, c)
  }

  /**
   * The coarse category a record is labelled with: looked up in its type's
   * map, with the type's catch-all bucket for a category the map lacks.
   */
  function CoarseOf(category: string, isExpense: bool): (c: string)
    ensures c in COARSE_CATEGORIES
    ensures isExpense && category in Keys(COARSE_EXPENSE_MAP) ==> c == Lookup(COARSE_EXPENSE_MAP, category).value
    ensures isExpense && category !in Keys(COARSE_EXPENSE_MAP) ==> c == "Other"
    ensures !isExpense && category in Keys(COARSE_INCOME_MAP) ==> c == Lookup(COARSE_INCOME_MAP, category).value
    ensures !isExpense && category !in Keys(COARSE_INCOME_MAP) ==> c == "Other Income"
  {
    CoarseValuesKnown();
    if isExpense then
      match Lookup(COARSE_EXPENSE_MAP, category)
      case Some(v) => v
      case None => "Other"
    else
      match Lookup(COARSE_INCOME_MAP, category)
      case Some(v) => v
      case None => "Other Income"
  }

  lemma CoarseValuesKnown()
    ensures forall v <- Values(COARSE_EXPENSE_MAP) :: v in COARSE_CATEGORIES
    ensures forall v <- Values(COARSE_INCOME_MAP) :: v in COARSE_CATEGORIES
  {
    ExpenseValuesKnown();
    IncomeValuesKnown();
  }

  lemma ExpenseValuesKnown()
    ensures forall v <- Values(COARSE_EXPENSE_MAP) :: v in COARSE_CATEGORIES
  {
    ExpenseValues();
  }

  lemma IncomeValuesKnown()
    ensures forall v <- Values(COARSE_INCOME_MAP) :: v in COARSE_CATEGORIES
  {
    IncomeValues();
  }

  lemma ExpenseValues()
    ensures Values(COARSE_EXPENSE_MAP) == ["Living", "Living", "Leisure", "Leisure", "Leisure", "Shopping", "Other", "Other"]
  {
    var t := COARSE_EXPENSE_MAP;
    var want: seq<string> := ["Living", "Living", "Leisure", "Leisure", "Leisure", "Shopping", "Other", "Other"];
    var vs := Values(t);
    assert |vs| == |want|;
    forall i | 0 <= i < |want| ensures vs[i] == want[i] {
      assert vs[i] == t[i].1;
    }
    assert vs == want;
  }

  lemma IncomeValues()
    ensures Values(COARSE_INCOME_MAP) ==
      ["Regular Income", "Regular Income", "Investments", "Investments", "Other Income", "Other Income", "Other Income"]
  {
    var t := COARSE_INCOME_MAP;
    var want: seq<string> :=
      ["Regular Income", "Regular Income", "Investments", "Investments", "Other Income", "Other Income", "Other Income"];
    var vs := Values(t);
    assert |vs| == |want|;
    forall i | 0 <= i < |want| ensures vs[i] == want[i] {
      assert vs[i] == t[i].1;
    }
    assert vs == want;
  }

  lemma ExpenseKeys()
    ensures Keys(COARSE_EXPENSE_MAP) == ALL_CATEGORIES[..8]
  {
    var t := COARSE_EXPENSE_MAP;
    var want := ALL_CATEGORIES[..8];
    var ks := Keys(t);
    assert |ks| == |want|;
    forall i | 0 <= i < |want| ensures ks[i] == want[i] {
      assert ks[i] == t[i].0;
    }
    assert ks == want;
  }

  lemma IncomeKeys()
    ensures Keys(COARSE_INCOME_MAP) == ALL_CATEGORIES[8..]
  {
    var t := COARSE_INCOME_MAP;
    var want := ALL_CATEGORIES[8..];
    var ks := Keys(t);
    assert |ks| == |want|;
    forall i | 0 <= i < |want| ensures ks[i] == want[i] {
      assert ks[i] == t[i].0;
    }
    assert ks == want;
  }

  lemma {:induction false} LexLessFromTransitive(a: string, b: string, c: string, i: nat)
    requires LexLessFrom(a, b, i) && LexLessFrom(b, c, i)
    ensures LexLessFrom(a, c, i)
    decreases |a| - i
  {
    if i < |a| && i < |b| && i < |c| && a[i] == b[i] && b[i] == c[i] {
      LexLessFromTransitive(a, b, c, i + 1);
    }
  }

  lemma {:induction false} LexLessFromIrreflexive(a: string, i: nat)
    ensures !LexLessFrom(a, a, i)
    decreases |a| - i
  {
    if i < |a| {
      LexLessFromIrreflexive(a, i + 1);
    }
  }

  /** LexLess is a strict order. */
  lemma LexLessStrictOrder(a: string, b: string, c: string)
    ensures !LexLess(a, a)
    ensures LexLess(a, b) && LexLess(b, c) ==> LexLess(a, c)
  {
    LexLessFromIrreflexive(a, 0);
    if LexLess(a, b) && LexLess(b, c) {
      LexLessFromTransitive(a, b, c, 0);
    }
  }

  lemma {:induction false} SortedFromAdjacent(s: seq<string>)
    requires forall i :: 0 <= i < |s| - 1 ==> LexLess(s[i], s[i + 1])
    ensures StrictlySorted(s)
  {
    if |s| > 1 {
      SortedFromAdjacent(s[1..]);
      forall j | 1 <= j < |s| ensures LexLess(s[0], s[j]) {
        if j > 1 {
          assert LexLess(s[1], s[j]) by { assert s[1] == s[1..][0] && s[j] == s[1..][j - 1]; }
          LexLessStrictOrder(s[0], s[1], s[j]);
        }
      }
      forall i, j | 0 <= i < j < |s| ensures LexLess(s[i], s[j]) {
        if i > 0 {
          assert s[i] == s[1..][i - 1] && s[j] == s[1..][j - 1];
        }
      }
    }
  }

  lemma CoarseValues()
    ensures Values(COARSE_EXPENSE_MAP) ==
      ["Living", "Living", "Leisure", "Leisure", "Leisure", "Shopping", "Other", "Other"]
    ensures Values(COARSE_INCOME_MAP) ==
      ["Regular Income", "Regular Income", "Investments", "Investments", "Other Income", "Other Income", "Other Income"]
  {
    ExpenseValues();
    IncomeValues();
  }

  /**
   * COARSE_CATEGORIES is the set of the maps' values, without repetition, in
   * sorted order.
   */
  lemma CoarseCategoriesAreSortedUnion()
    ensures StrictlySorted(COARSE_CATEGORIES)
    ensures forall c <- COARSE_CATEGORIES :: c in Values(COARSE_EXPENSE_MAP) + Values(COARSE_INCOME_MAP)
    ensures forall c <- Values(COARSE_EXPENSE_MAP) + Values(COARSE_INCOME_MAP) :: c in COARSE_CATEGORIES
  {
    CoarseCategoriesSorted();
    CoarseCategoriesUsed();
    CoarseValuesKnown();
  }

  lemma CoarseCategoriesSorted()
    ensures StrictlySorted(COARSE_CATEGORIES)
  {
    var s := COARSE_CATEGORIES;
    assert LexLess(s[0], s[1]) && LexLess(s[1], s[2]) && LexLess(s[2], s[3]);
    assert LexLess(s[3], s[4]) && LexLess(s[4], s[5]) && LexLess(s[5], s[6]);
    SortedFromAdjacent(s);
  }

  /** Every coarse category is the value of some fine category. */
  lemma CoarseCategoriesUsed()
    ensures forall c <- COARSE_CATEGORIES :: c in Values(COARSE_EXPENSE_MAP) + Values(COARSE_INCOME_MAP)
  {
    CoarseValues();
  }

  lemma NoneOutsideEmpty(t: seq<string>, s: seq<string>)
    requires forall x <- t :: x in s
    ensures s == [] ==> t == []
  {
    if t != [] {
      assert t[0] in s;
    }
  }

  lemma SortedHeadIsLeast(s: seq<string>, i: nat)
    requires StrictlySorted(s) && i < |s|
    ensures i == 0 || LexLess(s[0], s[i])
  {
  }

  /**
   * A strictly sorted sequence is determined by its elements: there is only
   * one way to sort a set of distinct strings.
   */
  lemma {:induction false} SortedUnique(s: seq<string>, t: seq<string>)
    requires StrictlySorted(s) && StrictlySorted(t)
    requires forall x <- s :: x in t
    requires forall x <- t :: x in s
    ensures s == t
    decreases |s|
  {
    NoneOutsideEmpty(t, s);
    if s != [] {
      assert t != [] by { assert s[0] in t; }
      var k := IndexOf(t, s[0]);
      var m := IndexOf(s, t[0]);
      LexLessStrictOrder(s[0], t[0], s[0]);
      SortedHeadIsLeast(t, k);
      SortedHeadIsLeast(s, m);
      assert s[0] == t[0];
      forall x | x in s[1..] ensures x in t[1..] {
        var i :| 1 <= i < |s| && s[i] == x;
        assert LexLess(s[0], s[i]);
        LexLessStrictOrder(x, x, x);
        var j := IndexOf(t, x);
        assert j != 0 && t[1..][j - 1] == x;
      }
      forall x | x in t[1..] ensures x in s[1..] {
        var i :| 1 <= i < |t| && t[i] == x;
        assert LexLess(t[0], t[i]);
        LexLessStrictOrder(x, x, x);
        var j := IndexOf(s, x);
        assert j != 0 && s[1..][j - 1] == x;
      }
      SortedUnique(s[1..], t[1..]);
      assert s == [s[0]] + s[1..] && t == [t[0]] + t[1..];
    }
  }

  /**
   * Sorting the distinct coarse values of both maps can only give
   * COARSE_CATEGORIES.
   */
  lemma CoarseCategoriesUnique(s: seq<string>)
    requires StrictlySorted(s)
    requires forall c <- s :: c in Values(COARSE_EXPENSE_MAP) + Values(COARSE_INCOME_MAP)
    requires forall c <- Values(COARSE_EXPENSE_MAP) + Values(COARSE_INCOME_MAP) :: c in s
    ensures s == COARSE_CATEGORIES
  {
    CoarseCategoriesAreSortedUnion();
    SortedUnique(s, COARSE_CATEGORIES);
  }

  /** A coarse id names its category back. */
  lemma CoarseIdRoundTrip(c: string)
    requires c in COARSE_CATEGORIES
    ensures IdToCoarse(CoarseToId(c) as real) == Some(c)
  {
  }

  lemma FineCategoryKeys()
    ensures Keys(COARSE_EXPENSE_MAP) + Keys(COARSE_INCOME_MAP) == ALL_CATEGORIES
  {
    var names := ALL_CATEGORIES;
    var ks := Keys(COARSE_EXPENSE_MAP) + Keys(COARSE_INCOME_MAP);
    ExpenseKeys();
    IncomeKeys();
    forall i | 0 <= i < |names| ensures ks[i] == names[i] {
      if i < 8 {
        assert ks[i] == names[..8][i];
      } else {
        assert ks[i] == names[8..][i - 8];
      }
    }
  }

  lemma AllCategoriesDistinct()
    ensures NoDuplicates(ALL_CATEGORIES)
  {
  }

  /** The keys of both maps, without repetition in first-seen order, are the fifteen listed names. */
  lemma AllCategoriesListed()
    ensures Distinct(Keys(COARSE_EXPENSE_MAP) + Keys(COARSE_INCOME_MAP)) == ALL_CATEGORIES
    ensures NoDuplicates(ALL_CATEGORIES) && |ALL_CATEGORIES| == 15
  {
    FineCategoryKeys();
    AllCategoriesDistinct();
    DistinctOfNoDuplicates(ALL_CATEGORIES);
  }
}
