/** Budgets (js/formulas/budget-formula.js): the 50/30/20 rule, a
    zero-based budget, envelope allocations and a comparison of spending
    with recommended shares of income. An object of categories is a
    sequence of named amounts in insertion order. */
module Budget {
  import opened FinMath

  /** A named amount: an expense, an allocation percentage or a spending
      figure. */
  datatype Item = Item(category: string, value: real)

  /** The values of `items`, in order. */
  function Values(items: seq<Item>): (values: seq<real>)
    ensures |values| == |items|
    ensures forall i :: 0 <= i < |items| ==> values[i] == items[i].value
  {
    seq(|items|, i requires 0 <= i < |items| => items[i].value)
  }

  // ---------------------------------------------------------------------
  // 50/30/20

  datatype RuleCategory = RuleCategory(amount: real, percentage: real, examples: seq<string>)

  datatype RuleBudget = RuleBudget(income: real, needs: RuleCategory, wants: RuleCategory, savings: RuleCategory)

  /** `calculate503020Budget`: half the income for needs, 30% for wants and
      20% for savings. Before rounding the three parts are the income; after
      rounding each to cents they are within one and a half cents of it. */
  function Calculate503020Budget(income: real): (r: RuleBudget)
    ensures r.income == Cents(income)
    ensures r.needs.amount == Cents(income * 0.50) && r.needs.percentage == 50.0
    ensures r.wants.amount == Cents(income * 0.30) && r.wants.percentage == 30.0
    ensures r.savings.amount == Cents(income * 0.20) && r.savings.percentage == 20.0
    ensures income - 0.015 < r.needs.amount + r.wants.amount + r.savings.amount <= income + 0.015
    ensures r.needs.percentage + r.wants.percentage + r.savings.percentage == 100.0
  {
    var needs := income * 0.50;
    var wants := income * 0.30;
    var savings := income * 0.20;
    assert needs + wants + savings == income;
    RuleBudget(Cents(income),
               RuleCategory(Cents(needs), 50.0,
                            ["Rent/Mortgage", "Utilities", "Groceries", "Insurance", "Minimum Debt Payments"]),
               RuleCategory(Cents(wants), 30.0, ["Dining Out", "Entertainment", "Hobbies", "Subscriptions", "Shopping"]),
               RuleCategory(Cents(savings), 20.0, ["Emergency Fund", "Retirement", "Debt Payoff", "Investments"]))
  }

  // ---------------------------------------------------------------------
  // Zero-based

  /** An expense line; `percentage` is `None` where the division by a zero
      income yields NaN or Infinity. */
  datatype ExpenseLine = ExpenseLine(category: string, amount: real, percentage: Option<real>)

  datatype ZeroBasedBudget = ZeroBasedBudget(income: real, expenses: seq<ExpenseLine>, totalExpenses: real,
                                             remaining: real, balanced: bool)

  function ExpenseLineOf(e: Item, income: real): ExpenseLine
  {
    ExpenseLine(e.category, Cents(e.value), if income == 0.0 then None else Some(Percent(e.value / income)))
  }

  /** `calculateZeroBasedBudget`: one line per expense in input order; the
      budget is balanced exactly when the expenses use up the income. */
  function CalculateZeroBasedBudget(income: real, expenses: seq<Item>): (r: ZeroBasedBudget)
    ensures |r.expenses| == |expenses|
    ensures forall i :: 0 <= i < |expenses| ==>
      r.expenses[i].category == expenses[i].category && r.expenses[i].amount == Cents(expenses[i].value)
    ensures r.remaining == Cents(income - Sum(Values(expenses)))
    ensures r.balanced <==> Sum(Values(expenses)) == income
  {
    var totalExpenses := Sum(Values(expenses));
    var remaining := income - totalExpenses;
    ZeroBasedBudget(Cents(income),
                    seq(|expenses|, i requires 0 <= i < |expenses| => ExpenseLineOf(expenses[i], income)),
                    Cents(totalExpenses), Cents(remaining), remaining == 0.0)
  }

  /** With a positive income and non-negative expenses that fit within it,
      each line's percentage lies between 0 and 100. */
  lemma ExpensePercentagesWithin(income: real, expenses: seq<Item>)
    requires income > 0.0
    requires forall i :: 0 <= i < |expenses| ==> expenses[i].value >= 0.0
    requires Sum(Values(expenses)) <= income
    ensures forall i :: 0 <= i < |expenses| ==>
      0.0 <= CalculateZeroBasedBudget(income, expenses).expenses[i].percentage.value <= 100.0
  {
    var r := CalculateZeroBasedBudget(income, expenses);
    forall i | 0 <= i < |expenses|
      ensures 0.0 <= r.expenses[i].percentage.value <= 100.0
    {
      PartBelowSum(Values(expenses), i);
      PercentWithin(expenses[i].value, income, 1.0);
      assert Percent(1.0) == 100.0;
    }
  }

  // ---------------------------------------------------------------------
  // Envelopes

  datatype Envelope = Envelope(category: string, percentage: real, amount: real)

  datatype EnvelopeBudget = EnvelopeBudget(income: real, envelopes: seq<Envelope>, totalAllocated: real,
                                           unallocated: real)

  /** The envelope for an allocation percentage of `income`, in cents. */
  function EnvelopeOf(a: Item, income: real): Envelope
  {
    Envelope(a.category, a.value, Cents(income * (a.value / 100.0)))
  }

  function Envelopes(income: real, allocations: seq<Item>): (envelopes: seq<Envelope>)
    ensures |envelopes| == |allocations|
    ensures forall i :: 0 <= i < |allocations| ==> envelopes[i] == EnvelopeOf(allocations[i], income)
  {
    seq(|allocations|, i requires 0 <= i < |allocations| => EnvelopeOf(allocations[i], income))
  }

  /** The rounded amounts of the envelopes, in order. */
  function EnvelopeAmounts(envelopes: seq<Envelope>): (amounts: seq<real>)
    ensures |amounts| == |envelopes|
    ensures forall i :: 0 <= i < |envelopes| ==> amounts[i] == envelopes[i].amount
  {
    seq(|envelopes|, i requires 0 <= i < |envelopes| => envelopes[i].amount)
  }

  /** `calculateEnvelopeBudget`: what is left unallocated is the income
      less the sum of the already rounded envelope amounts. */
  function CalculateEnvelopeBudget(income: real, allocations: seq<Item>): (r: EnvelopeBudget)
    ensures |r.envelopes| == |allocations|
    ensures forall i :: 0 <= i < |allocations| ==>
      r.envelopes[i].category == allocations[i].category && r.envelopes[i].percentage == allocations[i].value
    ensures r.unallocated == Cents(income - Sum(EnvelopeAmounts(r.envelopes)))
  {
    var envelopes := Envelopes(income, allocations);
    var totalAllocated := Sum(EnvelopeAmounts(envelopes));
    EnvelopeBudget(Cents(income), envelopes, Cents(totalAllocated), Cents(income - totalAllocated))
  }

  /** The envelopes add up, within half a cent each, to the income times the
      sum of the percentages over 100. */
  lemma {:induction false} EnvelopesNearShare(income: real, allocations: seq<Item>)
    ensures var total := Sum(EnvelopeAmounts(Envelopes(income, allocations)));
      var share := income * (Sum(Values(allocations)) / 100.0);
      var slack := 0.005 * |allocations| as real;
      share - slack <= total <= share + slack
  {
    if allocations != [] {
      var n := |allocations| - 1;
      var front := allocations[..n];
      var a := allocations[n];
      EnvelopesNearShare(income, front);
      assert EnvelopeAmounts(Envelopes(income, allocations)) == EnvelopeAmounts(Envelopes(income, front)) + [EnvelopeOf(a, income).amount];
      assert Values(allocations) == Values(front) + [a.value];
      SumAppend(EnvelopeAmounts(Envelopes(income, front)), EnvelopeOf(a, income).amount);
      SumAppend(Values(front), a.value);
      ShareSplits(income, Sum(Values(front)), a.value);
    }
  }

  lemma ShareSplits(income: real, s: real, p: real)
    ensures income * ((s + p) / 100.0) == income * (s / 100.0) + income * (p / 100.0)
  {
  }

  /** When the percentages add up to 100, the unallocated remainder is at
      most half a cent per envelope either way, before its own rounding. */
  lemma FullAllocationLeavesCents(income: real, allocations: seq<Item>)
    requires Sum(Values(allocations)) == 100.0
    ensures var total := Sum(EnvelopeAmounts(Envelopes(income, allocations)));
      -(0.005 * |allocations| as real) <= income - total <= 0.005 * |allocations| as real
  {
    EnvelopesNearShare(income, allocations);
  }

  // ---------------------------------------------------------------------
  // Spending analysis

  /** The recommended share of income for the known categories. */
  function RecommendedShare(category: string): Option<real>
  {
    if category == "housing" then Some(0.30)
    else if category == "food" then Some(0.15)
    else if category == "transportation" then Some(0.10)
    else if category == "utilities" then Some(0.10)
    else if category == "savings" then Some(0.20)
    else if category == "debt" then Some(0.10)
    else if category == "other" then Some(0.05)
    else None
  }

  /** `recommended[category] || 0`. */
  function Recommended(category: string, income: real): real
  {
    var share := RecommendedShare(category);
    if share.Some? then income * share.value else 0.0
  }

  /** The known categories' recommendations use up the whole income. */
  lemma RecommendedSumToIncome(income: real)
    ensures Recommended("housing", income) + Recommended("food", income) + Recommended("transportation", income)
            + Recommended("utilities", income) + Recommended("savings", income) + Recommended("debt", income)
            + Recommended("other", income) == income
  {
    assert income * 0.30 + income * 0.15 + income * 0.10 + income * 0.10 + income * 0.20 + income * 0.10
           + income * 0.05 == income * 1.0;
  }

  datatype Status = Over | Under | OnTrack

  /** `'over'` beyond 10% above the recommendation, `'under'` beyond 10%
      below it, else on track. */
  function SpendingStatus(actual: real, recommended: real): Status
  {
    var difference := actual - recommended;
    if difference > recommended * 0.1 then Over
    else if difference < -recommended * 0.1 then Under
    else OnTrack
  }

  /** For a non-negative recommendation the status compares the spending
      with 90% and 110% of it; a category without a recommendation is over
      as soon as anything is spent on it. */
  lemma StatusBands(actual: real, recommended: real)
    requires recommended >= 0.0
    ensures SpendingStatus(actual, recommended) == Over <==> actual > recommended * 1.1
    ensures SpendingStatus(actual, recommended) == Under <==> actual < recommended * 0.9
    ensures SpendingStatus(actual, recommended) == OnTrack <==>
      recommended * 0.9 <= actual <= recommended * 1.1
    ensures recommended == 0.0 ==> (SpendingStatus(actual, recommended) == Over <==> actual > 0.0)
  {
    assert recommended * 0.9 <= recommended * 1.1;
  }

  datatype SpendingLine = SpendingLine(category: string, actual: real, recommended: real, difference: real,
                                       status: Status)

  datatype SpendingAnalysis = SpendingAnalysis(income: real, analysis: seq<SpendingLine>, totalSpending: real)

  function SpendingLineOf(s: Item, income: real): SpendingLine
  {
    var rec := Recommended(s.category, income);
    var difference := s.value - rec;
    SpendingLine(s.category, Cents(s.value), Cents(rec), Cents(difference), SpendingStatus(s.value, rec))
  }

  /** `analyzeSpending`: one line per category in input order, and the total
      of all spending. */
  function AnalyzeSpending(income: real, actualSpending: seq<Item>): (r: SpendingAnalysis)
    ensures |r.analysis| == |actualSpending|
    ensures forall i :: 0 <= i < |actualSpending| ==>
      r.analysis[i].category == actualSpending[i].category
      && r.analysis[i].status == SpendingStatus(actualSpending[i].value,
                                                Recommended(actualSpending[i].category, income))
    ensures r.totalSpending == Cents(Sum(Values(actualSpending)))
  {
    SpendingAnalysis(Cents(income),
                     seq(|actualSpending|, i requires 0 <= i < |actualSpending| =>
                       SpendingLineOf(actualSpending[i], income)),
                     Cents(Sum(Values(actualSpending))))
  }

  /** Spending on a category without a recommendation is flagged over as
      soon as it is positive. */
  lemma UnknownCategoryOver(income: real, actualSpending: seq<Item>, i: nat)
    requires i < |actualSpending| && RecommendedShare(actualSpending[i].category).None?
    ensures AnalyzeSpending(income, actualSpending).analysis[i].status == Over
            <==> actualSpending[i].value > 0.0
  {
    StatusBands(actualSpending[i].value, 0.0);
  }
}
