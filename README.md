# Financial calculator formulas in Dafny

This project models the calculation core of a browser-based set of personal-finance calculators. That core is the formula objects in `js/formulas/`. Each formula file becomes one Dafny module, and there are three shared modules:

- `FinMath` holds JavaScript rounding (`Math.round(x * 100) / 100`, `Math.ceil`, `%`) and integer powers. It also holds the level-payment annuity and its inverse, and the "grow by a rate, then add a deposit" recurrence that every savings loop runs.
- `LevelPayment` holds the amortizing payment shared by the mortgage, auto-loan, refinance and home-equity formulas.
- `Sorting` is the stable sort that `Array.prototype.sort` performs with a numeric comparator.

What each calculator computes:

- **Payoff and amortization loops**: the loan payoff and credit-card payoff loops, which stop at 600 months, the mortgage schedule, which runs for the loan's term, and the refinance remaining-term estimate.
- **Debt payoff**: the multi-debt avalanche and snowball simulator. It sorts copies of the debts, pays every minimum, and puts the month's extra payment on the first debt still owed.
- **Tax**: the progressive bracket evaluators (income tax and tax refund), the capital-gains tax with the 3.8% net investment income tax, and the self-employment tax with its wage-base cap and the additional Medicare tax.
- **Social Security**: the benefit estimate from bend points and claiming adjustments, the AIME over the best 35 years, and the break-even age.
- **Growth projections**: compound interest, a 401(k) with employer match, IRAs, tax-deferred against taxable growth, retirement savings and income, net worth, dividends and dollar-cost averaging.
- **Small calculators**: auto loan, home equity, budget, emergency fund and stock return.

Modelling choices:

- Numbers are exact `real`s. Month, year and bracket counts are `nat`.
- A formula the source can make infinite or undefined (a division by zero, `Infinity` months) returns an `Option`.
- A loop in the source is a `method` with loop invariants. It is proved equal to a recursive specification function, and the promised properties are lemmas about that function.
- The debt-payoff simulator updates an `array` of remaining balances in place, as the source updates its copies of the debts.

## Model

| member | source | states |
|---|---|---|
| DebtPayoff.VisitDebt | js/formulas/debt-payoff-formula.js:55-69 | an owing debt accrues a month of interest and is paid at most its minimum plus the extra; the new remaining is old + interest − payment and never negative; the extra is used up exactly when it is positive and the debt still owes |
| DebtPayoff.VisitStep | js/formulas/debt-payoff-formula.js:52-84 | a debt with remaining ≤ 0 is skipped unchanged; otherwise only that debt's balance changes, stays ≥ 0, moves by interest − payment, and the extra is either kept whole or spent |
| DebtPayoff.VisitFrom | js/formulas/debt-payoff-formula.js:52-84 | the inner loop over the debts in sort order keeps one working balance per debt |
| DebtPayoff.Balances | js/formulas/debt-payoff-formula.js:41 | the working copies start with remaining equal to each debt's balance, in the same order |
| DebtPayoff.NextMonth | js/formulas/debt-payoff-formula.js:48-86 | one month advances the month counter by one and keeps one balance per debt |
| DebtPayoff.Simulate | js/formulas/debt-payoff-formula.js:47-87 | the month loop keeps one working balance per debt |
| DebtPayoff.FirstYear | js/formulas/debt-payoff-formula.js:99 | the returned schedule is the first min(12, months) entries of the full one |
| DebtPayoff.CalculatePayoffPlan | js/formulas/debt-payoff-formula.js:40-100 | the imperative month loop over the copies returns the plan of the specification; months ≤ 600, years·12 + remainingMonths = months, at most 12 schedule entries |
| DebtPayoff.PayMonth | js/formulas/debt-payoff-formula.js:49-84 | the inner loop updates the working balances in place exactly as the specification's month does, with interest, rows, total paid and payoff order |
| DebtPayoff.CalculateAvalanche | js/formulas/debt-payoff-formula.js:13-18 | the plan of a copy of the debts sorted by rate, highest first; at most 600 months |
| DebtPayoff.CalculateSnowball | js/formulas/debt-payoff-formula.js:26-31 | the plan of a copy of the debts sorted by balance, smallest first; at most 600 months |
| DebtPayoff.AvalancheOrder | js/formulas/debt-payoff-formula.js:15 | the avalanche order is a permutation of the debts with rates non-increasing |
| DebtPayoff.SnowballOrder | js/formulas/debt-payoff-formula.js:28 | the snowball order is a permutation of the debts with balances non-decreasing |
| DebtPayoff.Compared | js/formulas/debt-payoff-formula.js:113-122 | winner is avalanche iff its interest is strictly smaller; recommendation is avalanche iff its interest is below 95% of snowball's, which implies it is the winner; the interest difference is the absolute difference of the two totals to the cent (so ≥ 0) and the time difference is the absolute month difference |
| DebtPayoff.CompareMethods | js/formulas/debt-payoff-formula.js:109-123 | the method returns the comparison (`Compared`) of the specification's avalanche plan and snowball plan |
| DebtPayoff.SimulateStops | js/formulas/debt-payoff-formula.js:47 | the run ends within 600 months, and ends before 600 only when no debt still owes |
| DebtPayoff.VisitFromSettled | js/formulas/debt-payoff-formula.js:53-69 | within a month every working balance stays either untouched or ≥ 0 |
| DebtPayoff.SimulateSettled | js/formulas/debt-payoff-formula.js:47-87 | because payments are capped at what is owed, no working balance ever goes below 0 |
| DebtPayoff.SkipSettled | js/formulas/debt-payoff-formula.js:52-53 | debts that no longer owe are passed over: the month runs as if it began at the first debt still owing |
| DebtPayoff.NoExtraLeft | js/formulas/debt-payoff-formula.js:61-65 | once the extra is spent it stays spent for the rest of the month |
| DebtPayoff.ExtraGoesToFirstOwing | js/formulas/debt-payoff-formula.js:52-69 | the first debt still owing is paid its minimum plus the whole extra, capped at what it owes with interest; the extra is then 0 for every later debt of the month |
| DebtPayoff.VisitFromPaysAtMost | js/formulas/debt-payoff-formula.js:49-65 | within a month the debts are paid at most their minimums plus the part of the extra that was used |
| DebtPayoff.MonthPaysAtMost | js/formulas/debt-payoff-formula.js:49-78 | a month pays at most the minimums of the debts still owing plus the extra once: the extra resets monthly and freed minimums are not rolled over |
| DebtPayoff.VisitFromBalances | js/formulas/debt-payoff-formula.js:55-69 | within a month, total remaining + paid − interest is unchanged |
| DebtPayoff.SimulateBalanced | js/formulas/debt-payoff-formula.js:47-89 | over the run, remaining + everything paid = original balances + all interest |
| DebtPayoff.PaidInFull | js/formulas/debt-payoff-formula.js:89 | with non-negative balances, a run that stops before 600 months leaves every debt at exactly 0 and the unrounded totalPayments equals the total actually paid |
| DebtPayoff.VisitFromOrdered | js/formulas/debt-payoff-formula.js:81-83 | within a month the payoff order still names each debt at most once with non-decreasing months |
| DebtPayoff.SimulateOrdered | js/formulas/debt-payoff-formula.js:47-87 | payoffOrder names each debt at most once, appended in non-decreasing month order, every month between 1 and the last |
| DebtPayoff.SimulateNumbered | js/formulas/debt-payoff-formula.js:47-86 | the schedule has one entry per simulated month, numbered from 1 |
| DebtPayoff.PlanProperties | js/formulas/debt-payoff-formula.js:91-99 | the returned plan has months ≤ 600, an ordered payoff list, and min(months, 12) schedule entries numbered 1.. |
| DebtPayoff.NoDebts | js/formulas/debt-payoff-formula.js:47-89 | with no debts the loop never runs: 0 months and 0 total payments |
| LoanPayoff.Accrue | js/formulas/loan-payoff-formula.js:25-38 | a month adds one row and one month; from a positive balance the principal is capped so the balance stays ≥ 0; balance + paid − interest is unchanged |
| LoanPayoff.Run | js/formulas/loan-payoff-formula.js:24-39 | the loop stops within 600 months, and before 600 only with the balance ≤ 0; one row per month run |
| LoanPayoff.CalculatePayoff | js/formulas/loan-payoff-formula.js:15-49 | the imperative loop returns the summary of the specification's run, with its month count |
| LoanPayoff.RunFacts | js/formulas/loan-payoff-formula.js:24-39 | rows stay numbered 1.., a non-negative balance never goes negative, and balance + paid − interest is invariant over the loop |
| LoanPayoff.PayoffProperties | js/formulas/loan-payoff-formula.js:24-46 | months ≤ 600; exactly `months` rows numbered 1..months; a non-positive balance gives 0 months and no rows; a loan repaid before the cap ends exactly at 0 with totalPaid = balance + totalInterest |
| LoanPayoff.StepMonotone | js/formulas/loan-payoff-formula.js:25-28 | a month from a no-larger balance with a no-smaller payment leaves a no-larger balance |
| LoanPayoff.StepBalance | js/formulas/loan-payoff-formula.js:25-28 | one month leaves max((1 + r)·balance − payment, 0) |
| LoanPayoff.RunMonotone | js/formulas/loan-payoff-formula.js:24-30 | a no-larger balance and a no-smaller payment never take more months |
| LoanPayoff.PayoffMonthsMonotone | js/formulas/loan-payoff-formula.js:15-30 | paying more each month never lengthens the payoff |
| LoanPayoff.CompareScenarios | js/formulas/loan-payoff-formula.js:59-71 | both runs are the specification's; monthsSaved = standard.months − withExtra.months; interestSaved is the difference of the two interest totals to the cent; yearsSaved is the floor of monthsSaved/12 and monthsRemaining its truncated remainder; for a non-negative extra monthsSaved ≥ 0 and yearsSaved·12 + monthsRemaining = monthsSaved with 0 ≤ monthsRemaining < 12 |
| LoanPayoff.BisectFacts | js/formulas/loan-payoff-formula.js:89-99 | the bisection returns its starting payment or a tested payment inside the bracket whose payoff months are ≤ the target |
| LoanPayoff.CalculateRequiredExtraPayment | js/formulas/loan-payoff-formula.js:81-102 | the 100-round loop, whose invariant keeps 0 ≤ low ≤ high ≤ 2·balance, returns the rounded difference between the bisection's answer and the current payment |
| LoanPayoff.RequiredPaymentMeetsTarget | js/formulas/loan-payoff-formula.js:85-101 | for a non-negative balance the required payment is the current payment or a payment in [0, 2·balance] that pays off within the target |
| CreditCardPayoff.Month | js/formulas/credit-card-payoff-formula.js:22-37 | a month sets remaining to max(remaining + interest − payment, 0), so it is never negative; interest accumulates; the row shows the new month and balance, and what the payment took off equals min(payment, owed) |
| CreditCardPayoff.Run | js/formulas/credit-card-payoff-formula.js:21-38 | the loop stops within 600 months, and before 600 only once nothing is owed; one row per month run |
| CreditCardPayoff.CalculatePayoff | js/formulas/credit-card-payoff-formula.js:14-53 | the imperative loop returns the summary of the specification's run, with its month count |
| CreditCardPayoff.RunFacts | js/formulas/credit-card-payoff-formula.js:21-38 | rows stay numbered 1.. with non-negative balances, the schedule only grows, and remaining + applied − interest is invariant |
| CreditCardPayoff.MonthBalance | js/formulas/credit-card-payoff-formula.js:23-29 | one month leaves max((1 + r)·remaining − payment, 0) |
| CreditCardPayoff.PayoffProperties | js/formulas/credit-card-payoff-formula.js:21-40 | months ≤ 600; one row per month numbered from 1; no months for a non-positive balance; a card cleared before the cap ends at exactly 0 with payments totalling balance + interest, the reported totalPaid |
| CreditCardPayoff.SummaryProperties | js/formulas/credit-card-payoff-formula.js:42-51 | years·12 + remainingMonths = months with remainingMonths < 12, and the report keeps only the first min(months, 24) rows |
| CreditCardPayoff.MinimumPayment | js/formulas/credit-card-payoff-formula.js:63 | the minimum payment is the larger of 25 and balance·percent, so always ≥ 25 |
| CreditCardPayoff.CalculateMinimumPayment | js/formulas/credit-card-payoff-formula.js:62-65 | the payoff run at max(25, balance·percent), whose reported payment is ≥ 25 |
| CreditCardPayoff.RequiredPayment | js/formulas/credit-card-payoff-formula.js:74-85 | at 0% APR the payment times the months is the balance (undefined for 0 months); otherwise it is defined iff (1 + r)^n ≠ 1 and lies in [exact annuity payment, exact + 1 cent) |
| CreditCardPayoff.RunWithin | js/formulas/credit-card-payoff-formula.js:21-29 | if a larger starting balance rolled forward k months at the payment is no longer positive, the loop stops within k months |
| CreditCardPayoff.RequiredPaymentSuffices | js/formulas/credit-card-payoff-formula.js:14-85 | at a positive rate, paying the required payment clears a positive balance within the target months |
| CreditCardPayoff.RunMonotone | js/formulas/credit-card-payoff-formula.js:21-29 | a no-larger balance and a no-smaller payment never take more months |
| CreditCardPayoff.PayoffMonthsMonotone | js/formulas/credit-card-payoff-formula.js:14-29 | paying more each month never lengthens the payoff |
| CreditCardPayoff.CompareScenarios | js/formulas/credit-card-payoff-formula.js:95-106 | both runs are the specification's; monthsSaved and interestSaved are current minus increased, and monthsSaved ≥ 0 when the increased payment is not smaller |
| LevelPayment.Payment | js/formulas/mortgage-formula.js:18-27 | the level payment is defined iff there is at least one month at a zero rate or (1 + r)^n ≠ 1 otherwise; at a zero rate payment·n = principal |
| LevelPayment.LoanFor | js/formulas/mortgage-formula.js:100-109 | the inverse formula is defined iff the rate is zero or r·(1 + r)^n ≠ 0; at a zero rate it is budget·n |
| LevelPayment.PaymentClears | js/formulas/mortgage-formula.js:18-27 | paying the level payment every month for n months leaves exactly nothing owed, at a zero rate and at any other |
| LevelPayment.PaymentCoversLoan | js/formulas/mortgage-formula.js:18-27 | at a non-negative rate the n payments add up to at least the loan, and to exactly the loan at a zero rate |
| LevelPayment.LoanRoundTrip | js/formulas/mortgage-formula.js:25-108 | the loan a payment carries, fed back into the payment formula, gives the payment again |
| LevelPayment.PaymentRoundTrip | js/formulas/mortgage-formula.js:25-108 | the unrounded principal-from-payment formula inverts the payment formula: the payment of a loan gives back the loan |
| Mortgage.CalculateMonthlyPayment | js/formulas/mortgage-formula.js:17-40 | defined iff the level payment is; P&I is the exact annuity payment (principal/n at a zero rate) rounded to cents, tax, insurance and PMI are one twelfth of each annual amount rounded to cents, and the total is their unrounded sum rounded once, within 2.5 cents of the rounded parts |
| Mortgage.CalculateTotalInterest | js/formulas/mortgage-formula.js:49-52 | total interest lies within half a cent of payment·years·12 − principal; `Mortgage.TotalInterestValue` states the exact rounded value |
| Mortgage.TotalInterestNonNegative | js/formulas/mortgage-formula.js:18-52 | for a non-negative loan and rate the lifetime interest of the exact payment is ≥ 0, and exactly 0 at a zero rate |
| Mortgage.TotalInterestValue | js/formulas/mortgage-formula.js:50-51 | total interest is Cents(payment·n − principal) with n = years·12 |
| Mortgage.MakeRow | js/formulas/mortgage-formula.js:78-85 | a table row carries its month number and shows a non-negative balance for a non-negative balance |
| Mortgage.AmortizeMonth | js/formulas/mortgage-formula.js:71-85 | one month adds one row and keeps the earlier ones; interest is balance·r; the new balance is clamped at 0 and never negative |
| Mortgage.Amortize | js/formulas/mortgage-formula.js:70-86 | the loop runs to month numPayments, adding one row per remaining month |
| Mortgage.GenerateAmortizationSchedule | js/formulas/mortgage-formula.js:61-89 | the imperative for-loop builds exactly the table of the specification |
| Mortgage.AmortizeShape | js/formulas/mortgage-formula.js:70-86 | continuing the loop keeps the rows so far and numbers every new row in order with a non-negative balance |
| Mortgage.AmortizeInterestRises | js/formulas/mortgage-formula.js:71-83 | with a non-negative balance and rate the running totalInterest column never falls |
| Mortgage.ScheduleShape | js/formulas/mortgage-formula.js:70-86 | the table has exactly years·12 rows numbered 1..n whose balance is never negative |
| Mortgage.ScheduleInterestRises | js/formulas/mortgage-formula.js:71-83 | for a non-negative loan and rate the totalInterest column is non-decreasing |
| Mortgage.SchedulePaymentColumn | js/formulas/mortgage-formula.js:64-80 | every row shows the rounded P&I of calculateMonthlyPayment as its payment |
| Mortgage.AmortizePaymentColumn | js/formulas/mortgage-formula.js:80 | every row the loop adds shows the same rounded payment |
| Mortgage.CalculateMaxHomePrice | js/formulas/mortgage-formula.js:99-112 | defined iff the inverse formula is; the loan the budget carries (budget·n at a zero rate) plus the down payment, to the cent |
| Mortgage.MaxHomePriceRoundTrip | js/formulas/mortgage-formula.js:17-112 | the max home price for a loan's own exact P&I is the loan plus the down payment |
| Mortgage.BudgetRoundTrip | js/formulas/mortgage-formula.js:17-112 | the P&I of the largest loan a budget carries is the budget |
| AutoLoan.LoanFiguresOf | js/formulas/auto-loan-formula.js:18-33 | defined iff the payment is (a positive term at a zero rate); the sales tax is price·rate; the loan is price + tax + fees − down payment − trade-in; the monthly payment is the level payment of that loan and the total payments are that payment times the months, i.e. the loan plus the interest; the total cost is the payments plus down payment and trade-in; at a zero rate the payments are exactly the loan and the interest 0; interest is never negative at a non-negative rate on a non-negative loan |
| AutoLoan.CalculateLoan | js/formulas/auto-loan-formula.js:18-47 | the rounded report exists iff the payment is defined, and each of its ten fields is the corresponding input or unrounded figure rounded to cents; the reported interest is 0 at a zero rate and never negative at a non-negative rate on a non-negative loan |
| AutoLoan.CalculateAffordablePrice | js/formulas/auto-loan-formula.js:59-74 | defined iff the inverse payment formula is and 1 + tax rate ≠ 0; at a zero rate it is (budget·months + down payment + trade-in)/(1 + tax rate), to the cent |
| AutoLoan.AffordableRoundTrip | js/formulas/auto-loan-formula.js:18-74 | without fees, the unrounded payment of a car loan, fed back as the budget with the same down payment, trade-in, tax and rate, buys that car's price to the cent |
| Refinance.PayDown | js/formulas/refinance-formula.js:66-68 | one month of the current loan: balance·(1 + r) − payment, with no clamp |
| Refinance.RemainingFrom | js/formulas/refinance-formula.js:65-70 | the simulated month count never passes the 600-month cap |
| Refinance.EstimateRemainingMonths | js/formulas/refinance-formula.js:60-73 | the imperative while-loop returns the month count of the specification |
| Refinance.RemainingMonthsCharacterized | js/formulas/refinance-formula.js:60-73 | the count is at most 600, 0 for a balance ≤ 0, the balance is still positive before every earlier month, and unless the cap stopped it the balance is ≤ 0 at the count |
| Refinance.BreakEvenOf | js/formulas/refinance-formula.js:44-46 | the months are the break-even count rounded up and the years its twelfths rounded down; for a non-negative count, years·12 + leftover months = the months, with the leftover from 0 to 12 |
| Refinance.CalculateRefinance | js/formulas/refinance-formula.js:17-51 | defined iff the new payment is; the new payment, the monthly savings (current − new payment) and the closing costs are reported to the cent; refinancing is advised iff the savings are positive and 60 months of them exceed the closing costs; break-even has no value iff the savings are zero and is otherwise the split of closing costs / savings; the interest saved is, to the cent, the current loan's remaining payments less the new loan's payments |
| Refinance.Report | js/formulas/refinance-formula.js:30-50 | the same statements for a report built from a known new payment and month count |
| Refinance.RecoveryWithinSixty | js/formulas/refinance-formula.js:33-49 | with positive savings, breaking even in under sixty months is the same as sixty months of savings exceeding the closing costs |
| Refinance.BreakEvenSplit | js/formulas/refinance-formula.js:33-49 | with positive savings and non-negative closing costs the break-even figures exist, split into whole years and at most twelve months, and a recommended refinance breaks even within 60 months |
| TaxBrackets.Table | js/formulas/income-tax-formula.js:8-34 | every 2024 table has seven brackets: six finite limits and the unbounded top one |
| TaxBrackets.TaxableIncome | js/formulas/income-tax-formula.js:46 | the taxable income is never negative, never below income − deduction, and is one of the two |
| TaxBrackets.SliceAmount | js/formulas/income-tax-formula.js:58-59 | a slice is at most what is left and at most the bracket's width, and equals one of them (the top bracket has no width) |
| TaxBrackets.DetailsOf | js/formulas/income-tax-formula.js:65-69 | the breakdown has one line per slice, each the slice's rate in percent and its income and tax to the cent |
| TaxBrackets.ApplyBrackets | js/formulas/income-tax-formula.js:49-72 | the imperative bracket loop returns the tax and the breakdown of the slicing specification |
| TaxBrackets.TablesWellFormed | js/formulas/income-tax-formula.js:8-34 | the single, married and head-of-household tables have strictly rising limits, only the last bracket unbounded, and rates from 10% to 37% |
| TaxBrackets.TableWellFormed | js/formulas/income-tax-formula.js:8-34 | any table with positive, strictly rising limits is well formed |
| TaxBrackets.SlicesCoverIncome | js/formulas/income-tax-formula.js:55-72 | the slices add up to exactly the taxable income (nothing for nothing), number at most one per bracket, and are each positive at their bracket's rate |
| TaxBrackets.TaxBetweenRates | js/formulas/income-tax-formula.js:55-72 | the tax lies between the lowest and the highest rate times the taxable income |
| TaxBrackets.TaxMonotone | js/formulas/income-tax-formula.js:55-72 | more taxable income never means less tax |
| TaxBrackets.SliceTaxMonotone | js/formulas/income-tax-formula.js:60 | a wider slice at a non-negative rate carries no less tax |
| TaxBrackets.GetMarginalRate | js/formulas/income-tax-formula.js:88-97 | the imperative scan returns the rate in percent of the first bracket whose limit holds the taxable income, 37 if none does |
| TaxBrackets.MarginalIsTopSlice | js/formulas/income-tax-formula.js:55-97 | on a positive taxable income the marginal rate is the rate of the last slice the bracket loop cuts |
| TaxBrackets.MarginalInTable | js/formulas/income-tax-formula.js:88-97 | on a well-formed table the marginal rate is always one of the table's rates; the fallback 37 is never reached |
| IncomeTax.Deduction | js/formulas/income-tax-formula.js:44-45 | the deduction is the larger of the itemized and the standard deduction, and positive |
| IncomeTax.CalculateIncomeTax | js/formulas/income-tax-formula.js:43-86 | the method returns the report of the specification |
| IncomeTax.BracketsWellFormed | js/formulas/income-tax-formula.js:44-48 | the table every filing status selects is well formed with rates from 10% to 37% |
| IncomeTax.TaxWithinRates | js/formulas/income-tax-formula.js:46-72 | the tax is between 10% and 37% of the taxable income and the breakdown covers the taxable income exactly |
| IncomeTax.TaxNonDecreasing | js/formulas/income-tax-formula.js:43-86 | a higher income never owes less tax, unrounded or reported |
| IncomeTax.TakeHomeAndEffectiveRate | js/formulas/income-tax-formula.js:81-83 | on a positive income the take-home pay keeps at least 63% of it and the effective rate is a percentage from 0 to 37 |
| IncomeTax.MarginalRateIsTopBracket | js/formulas/income-tax-formula.js:65-82 | on a positive taxable income the reported marginal rate is the rate of the breakdown's last line |
| IncomeTax.UnknownStatusIsSingle | js/formulas/income-tax-formula.js:44-48 | an unrecognised filing status is taxed exactly like a single filer |
| TaxRefund.TaxAfterCredits | js/formulas/tax-refund-formula.js:76 | the tax after credits is never negative, never below tax − credits, and is one of the two |
| TaxRefund.CalculateTaxRefund | js/formulas/tax-refund-formula.js:45-93 | the method returns the report of the specification |
| TaxRefund.RefundAccounting | js/formulas/tax-refund-formula.js:76-88 | it is a refund iff more was withheld than the tax after credits; that tax is ≥ 0 and, with non-negative credits, at most the tax before credits; refund plus tax after credits is the withholding within a cent |
| TaxRefund.RefundBracketsWellFormed | js/formulas/tax-refund-formula.js:8-50 | the table every filing status selects is well formed with rates from 10% to 37% |
| TaxRefund.TaxNonNegative | js/formulas/tax-refund-formula.js:46-74 | the tax before credits is between 0 and 37% of the taxable income |
| TaxRefund.TaxAfterCreditsBound | js/formulas/tax-refund-formula.js:76-89 | with non-negative credits and a positive taxable income, the income is positive and the tax after credits is at most 37% of it |
| TaxRefund.EffectiveRateWithin | js/formulas/tax-refund-formula.js:89 | with non-negative credits the effective rate is a percentage from 0 to 37, and 0 when nothing is taxable |
| TaxRefund.HeadOfHouseholdUsesSingleBrackets | js/formulas/tax-refund-formula.js:46-50 | a head of household gets the 21,900 deduction but is taxed on the single brackets |
| TaxRefund.AgreesWithIncomeTax | js/formulas/tax-refund-formula.js:45-74 | for every status but head of household the tax before credits is the income-tax formula's tax |
| CapitalGains.LongTermBrackets | js/formulas/capital-gains-tax-formula.js:8-58 | every filing status selects a three-bracket long-term table; an unknown status gets the single one |
| CapitalGains.CalculateCapitalGains | js/formulas/capital-gains-tax-formula.js:33-104 | the method, with its bracket scan, returns the report of the specification |
| CapitalGains.NoGainNoTax | js/formulas/capital-gains-tax-formula.js:41-54 | a sale at or below its purchase price owes no tax and no NIIT, and keeps the whole sale price to the cent |
| CapitalGains.LongTermRateBands | js/formulas/capital-gains-tax-formula.js:58-72 | the long-term rate is 0% iff the total income is within the first limit, 15% iff it is within the second, and 20% iff it is above |
| CapitalGains.TableBands | js/formulas/capital-gains-tax-formula.js:62-67 | the scan of a three-bracket table picks 0%, 15% or 20% by the two limits |
| CapitalGains.LongTermRateMonotone | js/formulas/capital-gains-tax-formula.js:58-72 | a larger total income never lowers the long-term rate |
| CapitalGains.NiitBounds | js/formulas/capital-gains-tax-formula.js:77-81 | on a positive gain the NIIT is between 0 and 3.8% of the gain, and positive iff the total income passes the threshold |
| CapitalGains.GainTaxBounds | js/formulas/capital-gains-tax-formula.js:56-89 | a short-term gain pays 22% and no NIIT; every positive gain pays in all between 0 and 23.8% of the gain |
| CapitalGains.EffectiveRateWithin | js/formulas/capital-gains-tax-formula.js:102 | the effective rate of a positive gain is present and a percentage from 0 to 23.8 |
| SelfEmploymentTax.SocialSecurityEarnings | js/formulas/self-employment-tax-formula.js:19-20 | the earnings taxed for Social Security are the smaller of the taxable earnings and what other wages left of the wage base (never below 0): one of the two and at most each; so at most the wage base, nothing once other wages use the base up, and never negative on non-negative earnings |
| SelfEmploymentTax.AdditionalMedicare | js/formulas/self-employment-tax-formula.js:27-31 | the additional Medicare tax is 0.9% of the taxable earnings above 200,000, never negative and positive iff the taxable earnings pass 200,000 |
| SelfEmploymentTax.SeFiguresOf | js/formulas/self-employment-tax-formula.js:14-39 | taxable earnings are 92.35% of net earnings; Social Security is 12.4% of the capped earnings, Medicare 2.9% of the taxable earnings and the additional tax as above; the total is the three parts; half is deductible and a quarter due each quarter; Social Security takes at most 12.4% of the wage base and nothing once other wages used it up |
| SelfEmploymentTax.TotalWithinRates | js/formulas/self-employment-tax-formula.js:16-33 | on non-negative earnings the total is between 2.9% and 16.2% of the taxable earnings |
| SelfEmploymentTax.TotalMonotone | js/formulas/self-employment-tax-formula.js:16-33 | larger net earnings never owe less self-employment tax |
| SelfEmploymentTax.CalculateSeTax | js/formulas/self-employment-tax-formula.js:14-52 | the report rounds to the cent net and taxable earnings (92.35%), Social Security (12.4% of the capped earnings), Medicare (2.9%), the additional tax, the total, half and a quarter of the total; the effective rate is the total as a percentage of positive net earnings, else 0; the rounded parts add up to the rounded total within 1.5 cents, and the rounded deductible portion and quarterly payment are within rounding of half and a quarter of it |
| SelfEmploymentTax.EffectiveRateWithin | js/formulas/self-employment-tax-formula.js:50 | on positive earnings the effective rate is a percentage from 0 to 14.96; otherwise it is 0 |
| SocialSecurity.PiaSlopes | js/formulas/social-security-formula.js:20-31 | between any two earnings figures the amount grows by 15% to 90% of the difference, so it is increasing and continuous at both bend points (1056.6 at 1174 and 2945.88 at 7078) |
| SocialSecurity.Pia | js/formulas/social-security-formula.js:20-31 | on non-negative earnings the primary insurance amount is between 15% and 90% of them |
| SocialSecurity.MonthlyBenefit | js/formulas/social-security-formula.js:33-47 | the monthly benefit is the amount itself when claiming at full retirement age; for a non-negative amount it is no more when claiming earlier and no less when claiming later |
| SocialSecurity.AdjustmentFactor | js/formulas/social-security-formula.js:34-45 | the factor is 1 at full retirement age, 1 − 0.005556 per month early and 1 + 0.006667 per month late, with no cap |
| SocialSecurity.FactorIncreasing | js/formulas/social-security-formula.js:34-45 | claiming later always gives a strictly larger factor |
| SocialSecurity.Age70IsClaimAtSeventy | js/formulas/social-security-formula.js:53 | for a non-zero amount the age-70 comparison equals what claiming at 70 pays iff full retirement age is 67 |
| SocialSecurity.ClaimAfterSeventyExceedsComparison | js/formulas/social-security-formula.js:41-53 | with no cap, claiming after 70 at full retirement age 67 pays more than the age-70 comparison |
| SocialSecurity.Age62Benefit | js/formulas/social-security-formula.js:51 | the corrected age-62 comparison is the amount times the factor for claiming at 62 |
| SocialSecurity.Age62AsWritten | js/formulas/social-security-formula.js:51 | the source's age-62 figure: for a claim at 62 it is the claimed benefit itself; with full retirement age 62 or later and a non-negative benefit it lies between 0 and the claimed benefit, whatever the claiming age |
| SocialSecurity.Age62Comparison | js/formulas/social-security-formula.js:51 | the corrected comparison agrees with the source's for a claim at 62 and, for full retirement age 62 or later and non-negative earnings, never exceeds the full-retirement amount |
| SocialSecurity.Age62AsWrittenDiffers | js/formulas/social-security-formula.js:51 | as written, with average earnings 1000 and full retirement age 67, a claim at 67 is shown about 637.5 rather than the 599.976 a claim at 62 pays |
| SocialSecurity.FraDivisor | js/formulas/social-security-formula.js:98 | for whole ages the divisor that recovers the full-retirement benefit is never zero |
| SocialSecurity.EarlyClosedForm | js/formulas/social-security-formula.js:106-109 | the early total by the end of an age is the years since claiming, inclusive, times a year's benefit |
| SocialSecurity.FraClosedForm | js/formulas/social-security-formula.js:106-112 | the waiting total is the years at or after full retirement age times a year's full-retirement benefit |
| SocialSecurity.CalculateBreakEven | js/formulas/social-security-formula.js:97-127 | both series have one entry per age from the claiming age to 100, each the total by the end of that age; the break-even age is the first age at or after full retirement age at which waiting has caught up, or none |
| SocialSecurity.BreakEvenAtFra | js/formulas/social-security-formula.js:97-120 | claiming at full retirement age breaks even in the first year |
| SocialSecurity.LateClaimNeverBreaksEven | js/formulas/social-security-formula.js:98-120 | claiming after full retirement age with a positive benefit never breaks even |
| SocialSecurity.EarlyClaimStaysEven | js/formulas/social-security-formula.js:98-120 | claiming early (by at most 14 years) with a positive benefit: once waiting catches up it stays ahead |
| SocialSecurity.CalculateBenefit | js/formulas/social-security-formula.js:18-70 | the report holds the amount, the factor to four decimals, the monthly and annual benefit to the cent, the comparison (age 62 as intended, the amount itself, the age-70 figure) and the break-even analysis of the claimed benefit; for a claim at 62 the age-62 figure is exactly the source's |
| SocialSecurity.Positives | js/formulas/social-security-formula.js:80 | the filter keeps only earnings above zero |
| SocialSecurity.PositivesCount | js/formulas/social-security-formula.js:80 | the filter keeps each positive value as often as it occurs and drops the rest |
| SocialSecurity.RankedDescending | js/formulas/social-security-formula.js:79-81 | the ranking holds exactly the positive earnings, highest first |
| SocialSecurity.AimeUsesBestYears | js/formulas/social-security-formula.js:79-82 | at most 35 years are counted and no year left out earned more than a year counted |
| SocialSecurity.CalculateAime | js/formulas/social-security-formula.js:77-88 | the average, to the cent, is never negative and is 0 when no year has positive earnings |
| SocialSecurity.AimeOrderIndependent | js/formulas/social-security-formula.js:77-88 | the order the earnings come in does not change the average |
| EmergencyFund.MonthsRange | js/formulas/emergency-fund-formula.js:17-31 | the recommendation is 3 to 8 months; 8 iff the job is unstable, there are more than two dependents and one income; 3 iff the adjustments add up to nothing or less |
| EmergencyFund.MonthsNeeded | js/formulas/emergency-fund-formula.js:17-31 | the step-by-step adjustment returns the month count of the specification, between 3 and 8 |
| EmergencyFund.CalculateEmergencyFund | js/formulas/emergency-fund-formula.js:15-55 | the recommended amount is the recommended months of expenses; the minimum and the ideal are 3 and 6 months, as are the matching milestones; the factors are echoed |
| EmergencyFund.RecommendationBetween | js/formulas/emergency-fund-formula.js:33-35 | for non-negative expenses the minimum is at most the recommendation, which is at most eight months of expenses |
| EmergencyFund.Shortfall | js/formulas/emergency-fund-formula.js:65 | what is missing is never negative, never below goal − savings, and is one of the two |
| EmergencyFund.CalculateTimeToGoal | js/formulas/emergency-fund-formula.js:64-77 | a month count exists iff the contribution is positive; it is then the fewest whole months whose contributions cover what is missing, split into years and at most eleven months |
| EmergencyFund.MonthsCover | js/formulas/emergency-fund-formula.js:66 | ceil(s/c) months of c cover s, and one fewer would not |
| EmergencyFund.MonthsCovered | js/formulas/emergency-fund-formula.js:108-109 | a whole-month count exists iff the expenses are non-zero; for positive expenses it is the floor: that many months fit in the fund and one more does not |
| EmergencyFund.CalculateCoverage | js/formulas/emergency-fund-formula.js:85-113 | the total is essential plus discretionary; the month counts are those of the fund against each; the percentage exists iff the essential expenses are non-zero |
| EmergencyFund.CoverageOrder | js/formulas/emergency-fund-formula.js:100-111 | with positive essential and non-negative discretionary expenses, the fund covers no more months of all expenses than of essential ones, and six months of essentials show as 100% |
| EmergencyFund.FewerMonthsOfMore | js/formulas/emergency-fund-formula.js:108-109 | a non-negative fund lasts no more whole months against larger expenses |
| Plan401k.MatchUpToLimit | js/formulas/401k-formula.js:32-37 | the match is at most the match percentage of the employee contribution and of the limit's share of salary; it is the former up to the limit percentage and the latter beyond it |
| Plan401k.PlanYear | js/formulas/401k-formula.js:31-58 | one year advances the year number by one and raises the salary once |
| Plan401k.Plan | js/formulas/401k-formula.js:31-58 | the year loop runs to the last year |
| Plan401k.YearRowOf | js/formulas/401k-formula.js:49-55 | a year's row carries its number and the salary it started with, to the cent |
| Plan401k.Rows | js/formulas/401k-formula.js:29-58 | the loop pushes one row per remaining year |
| Plan401k.Calculate401k | js/formulas/401k-formula.js:19-78 | the nested year and month loops produce the projection's final balance, both contribution totals, their sum, the growth (balance − contributions − starting balance) and the rows, all to the cent; free money is the employer total; the inputs are echoed |
| Plan401k.SalaryClosedForm | js/formulas/401k-formula.js:57 | k raises multiply the starting salary by (1 + increase)^k |
| Plan401k.PlanRows | js/formulas/401k-formula.js:49-57 | every row from a given year on shows the starting salary raised once per earlier year |
| Plan401k.ProjectionRows | js/formulas/401k-formula.js:29-58 | yearlyData has one row per year 1..years, and year k+1 shows the starting salary raised k times |
| Plan401k.PlanAtZeroReturn | js/formulas/401k-formula.js:45-47 | with no return the years add exactly the contributions to the balance |
| Plan401k.ProjectionAtZeroReturn | js/formulas/401k-formula.js:45-61 | with no return the final balance is the starting balance plus every contribution |
| Plan401k.PlanGrowthNonNegative | js/formulas/401k-formula.js:45-47 | with non-negative terms the years never lose money beyond the contributions |
| Plan401k.ProjectionGrowthNonNegative | js/formulas/401k-formula.js:60-61 | with a non-negative start, salary, percentages and return the investment growth is never negative |
| Plan401k.YearClosedForm | js/formulas/401k-formula.js:42-47 | at a non-zero return a year's twelve steps give the closed-form future value of the opening balance and a twelfth of each contribution |
| Plan401k.PlanTotalsLevel | js/formulas/401k-formula.js:39-40 | without raises each remaining year adds the same contributions |
| Plan401k.ProjectionTotalsLevel | js/formulas/401k-formula.js:39-57 | without raises the totals are years times the first year's contributions |
| Plan401k.MaxPercent | js/formulas/401k-formula.js:91 | the maximum percentage is defined iff the salary is non-zero, and contributing exactly it reaches the limit |
| Plan401k.CheckContributionLimits | js/formulas/401k-formula.js:87-101 | catch-up eligible iff age ≥ 50, with limit 30,500 then and 23,000 otherwise; room to increase iff the contribution is below the limit; the remaining space is the limit less the contribution; the maximum percentage exists iff the salary is non-zero |
| Plan401k.BelowMaxPercent | js/formulas/401k-formula.js:89-91 | on a positive salary the contribution is under a limit iff the percentage is below the one that reaches it |
| Plan401k.CanIncreaseBelowMaxPercent | js/formulas/401k-formula.js:88-91 | on a positive salary there is room to increase iff the percentage is below the maximum percentage |
| Ira.Limit | js/formulas/ira-formula.js:8-27 | the limit is 8,000 from age 50 on and 7,000 before |
| Ira.CompareIra | js/formulas/ira-formula.js:21-76 | both monthly loops end at the same balance of monthly deposits of a twelfth of the capped contribution, and the comparison is drawn from the two |
| Ira.EqualBalancesCompare | js/formulas/ira-formula.js:38-74 | with equal balances both accounts show the same balance; Roth is recommended iff the withdrawal tax is positive, by that tax; the traditional after-tax value loses only that tax; the advantage is that tax over the larger after-tax value, absent when that is zero |
| Ira.EffectiveWithinLimit | js/formulas/ira-formula.js:27-28 | the contribution used never exceeds the limit for the age, is the requested one when that fits, and the limit is at least 7,000 |
| Ira.AdvantageIsRetirementRate | js/formulas/ira-formula.js:52-74 | with a retirement rate from 0 to 1 on a positive balance, the advantage is the retirement tax rate |
| Ira.RothWinsWhenTaxed | js/formulas/ira-formula.js:34-53 | on non-negative contributions and return, Roth wins iff the balance is positive and the retirement rate is positive |
| Ira.CalculateGrowth | js/formulas/ira-formula.js:86-104 | the loop returns one row per year 0..years, each the row of that year's specification |
| Ira.FirstGrowthRow | js/formulas/ira-formula.js:88-97 | the first row shows the initial balance, all contributed, with no growth |
| Ira.GrowthAtZeroReturn | js/formulas/ira-formula.js:92-100 | without a return every row shows zero growth |
| Ira.GrowthNonNegative | js/formulas/ira-formula.js:92-100 | with a non-negative start, contribution and return no row shows negative growth |
| TaxDeferred.TaxableStep | js/formulas/tax-deferred-formula.js:17-19 | a taxable month, the return less its tax and then the deposit, is one step of the recurrence at the after-tax rate |
| TaxDeferred.CalculateGrowth | js/formulas/tax-deferred-formula.js:7-68 | the three monthly loops end at the taxable balance (growth at the after-tax rate), the deposits, and the deferred balance for both the traditional and the Roth account; the report is drawn from those |
| TaxDeferred.TotalContributions | js/formulas/tax-deferred-formula.js:26-47 | the contributions total the initial investment plus one contribution a month |
| TaxDeferred.RothMatchesTraditional | js/formulas/tax-deferred-formula.js:34-66 | with equal deferred and Roth balances, Roth shows the traditional balance, contributions and growth, and an untaxed after-tax value; the traditional after-tax value loses only the tax on the gains; the advantage is that value less the taxable balance |
| TaxDeferred.ZeroTaxCoincides | js/formulas/tax-deferred-formula.js:16-31 | without tax the taxable account grows exactly like the deferred one |
| TaxDeferred.TaxableNeverAhead | js/formulas/tax-deferred-formula.js:16-31 | with non-negative deposits and return and a tax rate from 0 to 1, the taxable account never gets ahead of the deferred one |
| TaxDeferred.NoTaxNoAdvantage | js/formulas/tax-deferred-formula.js:34-66 | without tax the advantage is zero |
| CompoundInterest.CalculateCompoundInterest | js/formulas/compound-interest-formula.js:16-59 | the totals are the closed-form balance, the principal plus twelve contributions a year, and their difference, to the cent; one row per year 0..years, each the closed form for that year |
| CompoundInterest.ClosedFormIsCompounding | js/formulas/compound-interest-formula.js:17-28 | the closed form equals compounding period by period: year·frequency steps of b := b(1 + rate) + contribution per period |
| CompoundInterest.FirstYearRow | js/formulas/compound-interest-formula.js:34-47 | year 0 shows the principal, all of it paid in, with no interest |
| CompoundInterest.PeriodContributionsTotal | js/formulas/compound-interest-formula.js:19-29 | spread over the periods, a year's contributions add up to twelve monthly contributions |
| CompoundInterest.InterestNonNegative | js/formulas/compound-interest-formula.js:35-46 | with a non-negative principal and contribution and a positive rate the balance is never below what was paid in, and no row shows negative interest |
| CompoundInterest.BalanceNonDecreasing | js/formulas/compound-interest-formula.js:35-46 | with a non-negative principal and contribution and a positive rate the balance never falls from one year to a later one, unrounded or as shown |
| CompoundInterest.RuleOf72 | js/formulas/compound-interest-formula.js:66-68 | 0 for a rate that is not positive; otherwise 72/(rate·100) to one decimal |
| CompoundInterest.RuleOf72Antitone | js/formulas/compound-interest-formula.js:66-68 | a higher positive rate never takes longer to double |
| RetirementSavings.RequiredSavings | js/formulas/retirement-savings-formula.js:32 | 4% of the required savings is the desired income |
| RetirementSavings.SavingsGap | js/formulas/retirement-savings-formula.js:35 | the gap is never negative, zero iff the projection reaches the requirement, and otherwise closes it exactly |
| RetirementSavings.RequiredMonthlyRoundTrip | js/formulas/retirement-savings-formula.js:38-42 | the required contribution is missing iff there is a gap and the growth factor is 1, is 0 iff there is no gap, and fed back through the contribution formula gives the gap |
| RetirementSavings.YearlyProjection | js/formulas/retirement-savings-formula.js:45-54 | one row per age from the current age to the retirement age (none if retirement is earlier), each the balance grown a year at a time and the contributions so far |
| RetirementSavings.CalculateRetirementSavings | js/formulas/retirement-savings-formula.js:17-70 | the report holds the closed-form projection, the requirement, the gap and the required contribution to the cent; on track iff the projection reaches the requirement; the safe withdrawal is 4% of the projection; the rows are the yearly projection's |
| RetirementSavings.FirstAgeRow | js/formulas/retirement-savings-formula.js:47-52 | the first row is the current age with the current savings and nothing contributed |
| RetirementSavings.OnTrackMeansNoGap | js/formulas/retirement-savings-formula.js:35-66 | on track iff there is no gap, and no gap iff the required contribution is 0 |
| RetirementSavings.OnTrackCoversIncome | js/formulas/retirement-savings-formula.js:32-68 | when on track, 4% of the projection covers the desired income |
| RetirementSavings.TopUpReachesRequired | js/formulas/retirement-savings-formula.js:26-42 | with no starting savings, adding the required contribution to the plan's own makes the projection exactly the requirement |
| RetirementSavings.ContributionSum | js/formulas/retirement-savings-formula.js:26-27 | the contribution formula adds up over contributions |
| RetirementSavings.CalculateSavingsLongevity | js/formulas/retirement-savings-formula.js:79-91 | the result is unbounded iff the withdrawal is below the return on the starting balance; otherwise it is the first year the balance is no longer positive, capped at 100 |
| RetirementSavings.LastsForUnique | js/formulas/retirement-savings-formula.js:84-88 | at most one year count fits that description |
| RetirementSavings.LastsForAtZeroReturn | js/formulas/retirement-savings-formula.js:80-88 | without a return a positive balance lasts ceil(balance/withdrawal) years, capped at 100 |
| RetirementIncome.CalculateRetirementIncome | js/formulas/retirement-income-formula.js:16-47 | the monthly total is the withdrawal plus the three other sources, the annual total twelve of it, the withdrawals a twelfth of and all of savings × rate, to the cent; the source shares are absent iff the total is zero |
| RetirementIncome.AnnualIsTwelveMonths | js/formulas/retirement-income-formula.js:17-21 | the monthly withdrawal is a twelfth of the yearly one, and the yearly total is the four yearly lines added |
| RetirementIncome.SourcesSumToHundred | js/formulas/retirement-income-formula.js:40-45 | with a non-zero total the four rounded percentages add up to 100 within 0.02 |
| RetirementIncome.SourcesWithinWhole | js/formulas/retirement-income-formula.js:40-45 | with non-negative sources and a positive total every share is from 0 to 100 percent |
| RetirementIncome.IncomeGap | js/formulas/retirement-income-formula.js:58 | the gap is never negative, zero iff Social Security and the pension cover the target, and otherwise closes it exactly |
| RetirementIncome.CalculateRequiredSavings | js/formulas/retirement-income-formula.js:57-68 | the report holds the gap (never negative), the savings the gap needs and the guaranteed income, to the cent |
| RetirementIncome.SavingsForRoundTrip | js/formulas/retirement-income-formula.js:18-59 | withdrawing at the rate from the required savings yields exactly the monthly gap |
| RetirementIncome.RequiredSavingsMeetTarget | js/formulas/retirement-income-formula.js:17-59 | with the required savings and no other income the monthly income is the larger of the target and the guaranteed income |
| RetirementIncome.ProjectRetirementYears | js/formulas/retirement-income-formula.js:78-104 | the loop yields one row per year while the balance is positive, at most 50, each the row of that year's drawdown |
| RetirementIncome.RowStartsAtBalance | js/formulas/retirement-income-formula.js:88-95 | a row starts at the balance the year began with and never shows a negative ending balance |
| RetirementIncome.RowsChain | js/formulas/retirement-income-formula.js:88-95 | a year that leaves a positive balance ends where the next row starts |
| RetirementIncome.IncomeGrowsWithInflation | js/formulas/retirement-income-formula.js:99 | the monthly income of year k is the first year's times (1 + inflation)^k |
| RetirementIncome.RunsForUnique | js/formulas/retirement-income-formula.js:84 | at most one row count fits the loop's stopping rule |
| NetWorth.Lookup | js/formulas/net-worth-formula.js:15-30 | a missing category counts as 0, a present one as its amount |
| NetWorth.Breakdown | js/formulas/net-worth-formula.js:14-31 | one entry per category name, in order, each with its looked-up amount |
| NetWorth.Shares | js/formulas/net-worth-formula.js:38-49 | one share per entry, in order |
| NetWorth.CalculateNetWorth | js/formulas/net-worth-formula.js:13-74 | seven allocation and six composition shares; net worth is assets less liabilities; status positive iff that is > 0; the ratios are 0 when their divisor is not positive |
| NetWorth.AssetTotal | js/formulas/net-worth-formula.js:14-33 | the asset total is the seven categories added, a missing one counting as 0 |
| NetWorth.LiabilityTotal | js/formulas/net-worth-formula.js:24-34 | the liability total is the six categories added, a missing one counting as 0 |
| NetWorth.SharesOrdered | js/formulas/net-worth-formula.js:38-49 | each list holds every category's share exactly once, largest amount first |
| NetWorth.NoTotalNoPercentages | js/formulas/net-worth-formula.js:41-48 | when the total is not positive every percentage is 0 |
| NetWorth.PercentagesWithinWhole | js/formulas/net-worth-formula.js:41-48 | with non-negative amounts and a positive total every percentage is from 0 to 100 |
| NetWorth.ProjectNetWorth | js/formulas/net-worth-formula.js:84-100 | the loop returns one row per year 0..years, each the row of that year's projection |
| NetWorth.FirstProjectionRow | js/formulas/net-worth-formula.js:88-94 | year 0 shows the current net worth with no savings and no growth |
| NetWorth.NoReturnNoGrowth | js/formulas/net-worth-formula.js:93-96 | without a return no year shows growth |
| NetWorth.GrowthNonNegative | js/formulas/net-worth-formula.js:93-96 | with a non-negative start, savings and return no year shows negative growth |
| NetWorth.AgeBracket | js/formulas/net-worth-formula.js:126 | the bracket is the multiple of ten at or below the age, within ten years of it |
| NetWorth.OrElse | js/formulas/net-worth-formula.js:127-128 | a missing or zero listed value falls back |
| NetWorth.CompareToBenchmarks | js/formulas/net-worth-formula.js:109-138 | the target is the listed figure for the age bracket or else the net worth, and on track iff the net worth is at least 80% of it |
| NetWorth.UnlistedAgeDefaults | js/formulas/net-worth-formula.js:111-137 | outside ages 30 to 69 target and median are the net worth itself; on track iff it is non-negative; both comparisons are 0, absent for a zero net worth |
| NetWorth.FiftiesBenchmark | js/formulas/net-worth-formula.js:113-136 | in the fifties with a positive income the target is age·income/3.5 and the median 170,000 |
| Budget.Values | js/formulas/budget-formula.js:47-122 | the values of an object of categories, in insertion order |
| Budget.Calculate503020Budget | js/formulas/budget-formula.js:12-38 | the income and the three amounts are reported to the cent: needs 50%, wants 30% and savings 20% of the income, labelled 50, 30 and 20 percent; the rounded amounts add up to the income within 1.5 cents and the percentages to 100 |
| Budget.CalculateZeroBasedBudget | js/formulas/budget-formula.js:46-62 | one line per expense in input order with its amount to the cent; the remainder is income less all expenses; balanced iff the expenses use up the income exactly |
| Budget.ExpensePercentagesWithin | js/formulas/budget-formula.js:56 | with a positive income and non-negative expenses that fit within it, every line's percentage is from 0 to 100 |
| Budget.Envelopes | js/formulas/budget-formula.js:71-75 | one envelope per allocation, in order, each the percentage of the income to the cent |
| Budget.CalculateEnvelopeBudget | js/formulas/budget-formula.js:70-86 | the envelopes keep each allocation's category and percentage, and the unallocated remainder is the income less the sum of the rounded envelopes |
| Budget.EnvelopesNearShare | js/formulas/budget-formula.js:74-77 | the rounded envelopes add up to the income times the percentages' sum over 100, within half a cent each |
| Budget.FullAllocationLeavesCents | js/formulas/budget-formula.js:74-84 | when the percentages add up to 100 the unallocated remainder is at most half a cent per envelope either way |
| Budget.RecommendedSumToIncome | js/formulas/budget-formula.js:95-103 | the seven recommended shares use up the whole income |
| Budget.StatusBands | js/formulas/budget-formula.js:106-108 | for a non-negative recommendation the status is over iff spending exceeds 110% of it, under iff it is below 90%, on track otherwise; with no recommendation anything spent is over |
| Budget.AnalyzeSpending | js/formulas/budget-formula.js:94-124 | one line per category in input order with the status against its recommendation, and the total of all spending |
| Budget.UnknownCategoryOver | js/formulas/budget-formula.js:106-108 | spending on a category with no recommendation is over iff it is positive |
| HomeEquity.AvailableEquity | js/formulas/home-equity-formula.js:17-18 | the available equity is never negative, zero iff the mortgage already reaches the maximum loan-to-value, and otherwise brings the loans exactly to it |
| HomeEquity.CalculateEquity | js/formulas/home-equity-formula.js:14-32 | the equity is value less mortgage and the available equity is never negative, to the cent; the three ratios exist iff the home value is non-zero |
| HomeEquity.EquityAndLtvMakeWhole | js/formulas/home-equity-formula.js:16-28 | equity percentage and loan-to-value add up to 100, and to within a cent once rounded |
| HomeEquity.CombinedLtvAfterBorrowing | js/formulas/home-equity-formula.js:17-20 | borrowing all available equity brings the combined loan-to-value to the maximum when the mortgage is within it, and leaves it at the current ratio otherwise |
| HomeEquity.AmortizingPayment | js/formulas/home-equity-formula.js:54-56 | the 240-month payment exists iff (1 + r)^240 ≠ 1 |
| HomeEquity.CalculateHelocPayment | js/formulas/home-equity-formula.js:41-63 | interest-only pays the month's interest and no principal; otherwise the payment exists iff the annuity formula does, and the principal part is the payment less the interest, to the cent |
| HomeEquity.AmortizingPaymentRepays | js/formulas/home-equity-formula.js:54-56 | paying the amortizing payment for 240 months repays the line exactly |
| HomeEquity.AmortizingRepaysPrincipal | js/formulas/home-equity-formula.js:43-61 | at a positive rate on a positive balance the payment exists and exceeds the interest, so the principal part is never negative |
| Dividend.CalculateYieldOnCost | js/formulas/dividend-formula.js:77-79 | the yield on cost is the dividend over the cost per share in percent, to two decimals |
| Dividend.RowAt | js/formulas/dividend-formula.js:31-37 | a projection row for year y shows y, that year's dividend per share to the cent, and its yield on cost at today's price |
| Dividend.CalculateDividends | js/formulas/dividend-formula.js:16-69 | the report holds the yield, income and value figures to the cent; one projection row per year 1..years, year y paying the dividend grown y times with the running income; and the holding reached by reinvesting every year's dividend at today's price |
| Dividend.CurrentYieldIsYieldOnCost | js/formulas/dividend-formula.js:17-79 | the current yield is the yield on cost of a share bought today |
| Dividend.CumulativeNonDecreasing | js/formulas/dividend-formula.js:26-37 | with a non-negative dividend, growth above −100% and non-negative shares, the running total of dividends never falls, nor the reported figure |
| Dividend.NewSharesNonNegative | js/formulas/dividend-formula.js:46-47 | a non-negative dividend on a non-negative holding buys a non-negative number of shares |
| Dividend.DividendNonNegative | js/formulas/dividend-formula.js:27-45 | the dividend stays non-negative while growth stays above −100% |
| Dividend.ReinvestedAtLeastOwned | js/formulas/dividend-formula.js:41-50 | reinvesting never leaves fewer shares than were owned at the start |
| Dividend.ReinvestedSharesNonDecreasing | js/formulas/dividend-formula.js:44-50 | reinvesting never reduces the share count from one year to a later one |
| Dividend.ReinvestAddsIncome | js/formulas/dividend-formula.js:46-49 | buying with a year's dividend adds exactly that income to the holding's value |
| Dividend.ReinvestingBeatsCash | js/formulas/dividend-formula.js:26-50 | the reinvested holding is worth at least the original holding plus every dividend paid on the original shares |
| Dividend.NoYearsNoReinvestment | js/formulas/dividend-formula.js:41-67 | with no years the scenario is the holding as it stands, with nothing added |
| DollarCostAveraging.SharesShown | js/formulas/dollar-cost-averaging-formula.js:33 | the share figure is absent iff the notional price 100·(1 + r·month) is zero |
| DollarCostAveraging.ReturnPercent | js/formulas/dollar-cost-averaging-formula.js:52-58 | the return percentage is absent iff nothing was invested |
| DollarCostAveraging.CompareOutcomes | js/formulas/dollar-cost-averaging-formula.js:60-64 | the lump sum wins iff it ends strictly ahead, the difference is reported from its side, and the advantage is absent iff the lump-sum balance is zero |
| DollarCostAveraging.SimulateDca | js/formulas/dollar-cost-averaging-formula.js:16-67 | the loop yields one row per month 1..months, the averaged outcome of the months' deposits, the lump-sum outcome and their comparison |
| DollarCostAveraging.TotalInvested | js/formulas/dollar-cost-averaging-formula.js:26 | after the loop the amount invested is the monthly investment times the months |
| DollarCostAveraging.DcaIsAnnuityDue | js/formulas/dollar-cost-averaging-formula.js:27 | averaging compounds like a deposit of monthly·(1 + r) at the end of each month |
| DollarCostAveraging.ZeroReturn | js/formulas/dollar-cost-averaging-formula.js:27-38 | with no return the averaged balance is what was invested and the lump sum stays put |
| DollarCostAveraging.AveragingBound | js/formulas/dollar-cost-averaging-formula.js:25-28 | with a non-negative return the averaged balance is at most every deposit compounded for the whole period |
| DollarCostAveraging.LumpSumNeverBehind | js/formulas/dollar-cost-averaging-formula.js:25-62 | on a market that does not fall, investing the same total at once never ends behind averaging, so averaging wins only on a tie |
| DollarCostAveraging.CalculateAverageCost | js/formulas/dollar-cost-averaging-formula.js:74-91 | the loop's totals are the dollars spent and the shares bought, and the cost per share they give (0 if no shares) |
| DollarCostAveraging.CostBetweenPrices | js/formulas/dollar-cost-averaging-formula.js:78-82 | the cost lies between the lowest and highest price times the shares |
| DollarCostAveraging.AverageBetweenPrices | js/formulas/dollar-cost-averaging-formula.js:74-91 | the average cost per share lies between the lowest and highest price paid |
| DollarCostAveraging.SamePriceAverage | js/formulas/dollar-cost-averaging-formula.js:74-91 | buying always at the same price averages to that price |
| StockReturn.Dividends | js/formulas/stock-return-formula.js:20-29 | taken as cash, the dividends are the dividends and the shares unchanged; reinvested, they buy dividends/average price shares, valued at today's price |
| StockReturn.CalculateStockReturn | js/formulas/stock-return-formula.js:16-48 | the investment, value, shares, capital gain, dividends and total return (gain plus dividends) to the cent; the percentage is absent iff the initial investment is zero |
| StockReturn.TotalReturnIsValueChange | js/formulas/stock-return-formula.js:17-33 | the capital gain is the current value less the initial investment, so the total return is the change in value plus the dividends |
| StockReturn.ReinvestingPaysWhenPriceRises | js/formulas/stock-return-formula.js:23-29 | for positive prices, reinvested dividends are worth more than the cash paid iff the price has risen, and the same iff it is unchanged |
| StockReturn.CalculateCostBasis | js/formulas/stock-return-formula.js:55-71 | the loop's totals are the shares and cost over the lots, and the cost per share they give (0 if no shares) |
| StockReturn.SingleLotAverage | js/formulas/stock-return-formula.js:64 | a single lot averages to its price when it holds shares, and to 0 otherwise |
| StockReturn.LotsCostBetween | js/formulas/stock-return-formula.js:59-62 | the cost lies between the lowest and highest price times the shares |
| StockReturn.AverageCostBetweenPrices | js/formulas/stock-return-formula.js:55-71 | the average cost lies between the lowest and highest price paid whenever shares are held |
| FinMath.Round | js/formulas/compound-interest-formula.js:67 | `Math.round` gives the integer within half of its argument, halves going up |
| FinMath.Cents | js/formulas/compound-interest-formula.js:44-55 | rounding to cents moves an amount by at most half a cent |
| FinMath.CentsMonotone | js/formulas/compound-interest-formula.js:44-55 | rounding to cents keeps amounts in order |
| FinMath.CeilCents | js/formulas/credit-card-payoff-formula.js:84 | rounding up to cents never lowers an amount and adds less than a cent |
| FinMath.JsRem | js/formulas/loan-payoff-formula.js:69 | the JavaScript remainder of whole numbers is below the divisor in size and takes the dividend's sign |
| FinMath.JsFmod | js/formulas/refinance-formula.js:46 | the JavaScript remainder of reals is below the divisor in size and takes the dividend's sign |
| FinMath.GrowClosedForm | js/formulas/compound-interest-formula.js:21-26 | month-by-month compounding with a deposit each month equals the closed form P(1+i)^n + c((1+i)^n − 1)/i for any non-zero rate |
| FinMath.GrowMonotoneInRate | js/formulas/tax-deferred-formula.js:16-31 | for non-negative flows a lower rate never gives a larger balance |
| FinMath.AnnuityRoundTrip | js/formulas/mortgage-formula.js:25-108 | the present value of the level payment on a principal is that principal |
| FinMath.AnnuityClears | js/formulas/mortgage-formula.js:25-77 | paying the level payment for the whole term leaves exactly nothing owed |
| FinMath.AnnuityExceedsInterest | js/formulas/mortgage-formula.js:25-72 | at a positive rate the level payment exceeds a month's interest, so every payment retires principal |
| FinMath.Take | js/formulas/social-security-formula.js:82 | `slice(0, n)` keeps the first n elements, or all of them when there are fewer |
| Sorting.SortBy | js/formulas/debt-payoff-formula.js:15-28 | the numeric-comparator sort returns a permutation of its input |
| Sorting.SortBySorted | js/formulas/net-worth-formula.js:42-49 | the sorted sequence is ordered by the key |
| Sorting.SortByStable | js/formulas/net-worth-formula.js:42-49 | the sort is stable: the elements with any one key come out in the order they went in |
| Sorting.DescendingUnique | js/formulas/social-security-formula.js:79-82 | two descending orderings of the same numbers are equal, so the top earnings do not depend on the input order |

## Left out

- `investment-return-formula.js` is not part of this model. Its CAGR and annualized return use `Math.pow(x, 1 / years)`, a fractional exponent that has no counterpart over Dafny reals.
- The `formatCurrency` and `formatPercent` methods are not modelled. They only produce display strings through `Intl.NumberFormat`.
- The calculator pages, the page script and the calculator registry are not modelled. They handle DOM input and output, page layout and static content.
- IEEE-754 arithmetic is not modelled. Numbers are exact reals, so there is no float drift and no NaN or Infinity propagation. Where the source can produce `Infinity`, the model returns `None`, except for the inputs that a `requires` listed below excludes.
- Fractional year and month counts are not modelled. Terms, ages and month counts are whole numbers (`nat`/`int`).
- Constant display strings are not modelled: method names, example lists, advice texts and the `${rate}%` bracket label.
- Dead computations whose results nothing reads are not modelled:
  - the volatility `Math.sqrt` and `averageCost` in `simulateDCA`;
  - `rothContribution` in `compareIRA`;
  - `finalValue` in `calculateStockReturn`.
- `taxableCostBasis` and the `contributionType` argument of the tax-deferred `calculateGrowth` are read by nothing in the source; the model carries them along unused.
- Schedule rows of `LoanPayoff.CalculatePayoff`, `CreditCardPayoff.CalculatePayoff` and `DebtPayoff.CalculatePayoffPlan` are not rounded. The model keeps them unrounded; the totals are rounded to cents as in the source.
- `DebtPayoff.CalculatePayoffPlan` follows the code rather than the textbook snowball: a paid-off debt's minimum payment is never rolled over to the other debts. The extra payment resets each month, and extra beyond what the first open debt owes is dropped.
- `CompoundInterest.CalculateCompoundInterest` requires a non-zero annual rate. The source divides by the period rate without a guard and returns NaN at zero.
- `RetirementSavings.CalculateRetirementSavings` requires a non-zero return, and it requires `1 + annualReturn/12 ≠ 0` when the retirement age is below the current age. The source divides by the monthly return without a guard, so a zero return gives `Infinity` or `NaN`. When the return is −12 and retirement comes before the current age, the source raises 0 to a negative power and also gives `Infinity` or `NaN`. The model does not cover these inputs.
- `RetirementIncome.CalculateRequiredSavings` requires a non-zero withdrawal rate. The source divides by it without a guard.
- `Dividend.CalculateDividends` requires a non-zero share price, and `Dividend.CalculateYieldOnCost` a non-zero cost basis. The source divides by them without a guard.
- `StockReturn.CalculateStockReturn` requires a non-zero sum of purchase and current price when dividends are reinvested. The source divides by their average.
- `DollarCostAveraging.CalculateAverageCost` requires every purchase price to be non-zero. The source divides each amount by its price.
- `Mortgage.GenerateAmortizationSchedule` requires the annuity payment to be defined, i.e. a rate at which `(1 + r)^n` is not 1. The source divides by `(1 + r)^n - 1` without a guard.
- `EmergencyFund.CalculateCoverage`: `expenses.x || 0` also treats 0 and NaN like a missing category. The model distinguishes only a missing category (`None`) from a number.
- `EmergencyFund.CalculateEmergencyFund` keeps the clamp of the month count to 12 although it never binds: the adjustments reach at most 8 months.
- `NetWorth.CalculateNetWorth`: categories of equal amount keep their input order, because the model's sort is stable like the source's (`Sorting.SortByStable`).
- `SocialSecurity.AdjustmentFactor` follows the code: the delay credit keeps growing after age 70, with no cap.
- `SocialSecurity.CalculateBenefit` reports the corrected age-62 figure (`SocialSecurity.Age62Benefit`, the benefit when claiming at 62) in its comparison, not the expression at `js/formulas/social-security-formula.js` line 51. The two agree for a claim at 62, which its contract states; for other claiming ages the source's figure is `SocialSecurity.Age62AsWritten` (see Findings).
- Default argument values are not modelled: every parameter is passed explicitly. The source's defaults are `fees = 0` (`calculateLoan`), `filingStatus = 'single'` and `ordinaryIncome = 0` (`calculateCapitalGains`), `compoundFrequency = 12` (`calculateCompoundInterest`), `minPaymentPercent = 0.02` (`calculateMinimumPayment`, kept as `CreditCardPayoff.DefaultMinimumPercent`), `dividendGrowth = 0` and `years = 10` (`calculateDividends`), `volatility = 0.15` (`simulateDCA`), `maxLTV = 0.80` (`calculateEquity`), `interestOnly = true` (`calculateHELOCPayment`), `filingStatus = 'single'` and `deductions = 0` (`calculateIncomeTax`), `extraPayment = 0` (`calculatePayoff`), `propertyTax`, `insurance` and `pmi = 0` (`calculateMonthlyPayment`), `withdrawalRate = 0.04` (`calculateRetirementIncome`, `calculateRequiredSavings`), `inflation = 0.025` (`projectRetirementYears`), `otherWages = 0` (`calculateSETax`), `annualSalaryIncrease = 0` (`calculate401k`), `fra = 67` (`calculateBenefit`), `totalDividends = 0` and `dividendReinvested = false` (`calculateStockReturn`), `contributionType = 'traditional'` (tax-deferred `calculateGrowth`), and `deductions = 0` and `credits = 0` (`calculateTaxRefund`).
- JavaScript object key order is not modelled. An object of categories (`Budget`, `NetWorth.Lookup`, `NetWorth.Breakdown`) is a sequence of named amounts in insertion order, whereas a JavaScript object lists integer-like keys first in ascending order, and a sequence may name a category twice where an object holds each key once.
- `CapitalGains.CalculateCapitalGains`: the no-gain report has no effective rate. The model shows it as `None`.

## Findings

| source | as written | input that shows it | evidently intended | confidence | as-written member | corrected member |
|---|---|---|---|---|---|---|
| js/formulas/social-security-formula.js:51 | the age-62 figure in the claiming comparison multiplies the benefit at the chosen claiming age by `0.933328^(fra − 62)` | AIME 1000, full retirement age 67, claiming at 67: 637.50 instead of the age-62 benefit 599.976 | the benefit when claiming at 62, computed from the PIA like every other claiming age | not executed | `SocialSecurity.Age62AsWritten`, `SocialSecurity.Age62AsWrittenDiffers` | `SocialSecurity.Age62Benefit`, `SocialSecurity.Age62Comparison` |
