# Verification of the car insurance simulator

A Dafny model of the rating engine, the transactional outbox and the paginated history of the car insurance
service, with proofs of what they promise. `dafny verify dfyconfig.toml` checks everything.

## The rating engine

A decimal is `Dec(coef, exp)`. Every `*`, `+` and `-` of the working context rounds half-even to 80 significant
digits (`Decimals.Fix`); `//` and `quantize` fail when a result is too long. `SignificantDigits.RoundSig` is the
same rounding on real numbers, `Decimals.FixRounds` connects the two, and all later reasoning is about reals. The
general lemmas hold for any precision; 80 is only used for the shipped configuration.

`RateLaws`, `MoneyLaws` and `SimulationLaws` need no bound on the number of digits: bounds, signs and monotonicity
hold with every intermediate rounding included. `ExactArithmetic` says when nothing rounds at all, `DefaultRules`
derives the digit budget of the shipped rules, and `Conservation` computes the exact error between
`deductible_value + policy_limit` and the base. `JsonNumber` and `JsonThreshold` follow a decimal through the
nearest binary64 and shortest printing (section 5.12.2 of IEEE 754-2008); `ShortestPrinting` proves that such a printing
always exists. `DeductibleThreshold` and `PremiumOrder` find the deductibles up to which premiums keep their order, and
`ErrorBounds` says how far any figure can be from its formula.

## The outbox

`Persistence` is the pair of tables with their keys and what flush and commit do. `OutboxProtocol` is a transition
system of any number of workers over one committed database: opening, flushing, draining and committing are separate
steps that interleave freely, each may fail, a commit may take effect although its call fails, and a worker may crash
anywhere. In `UnitOfWorkReuse` a unit of work serves one request after another. `SharedBuffers` lets any number of
requests have any unit of work: tables stay consistent while a buffer serves one request at a time and identifiers are
fresh, and a run is given for each of the two conditions in which it alone is broken and the tables are not consistent.

The classes of `Sessions`, `UnitsOfWork`, `SimulationRepository`, `Aggregate`, `CalculationContext` and `UseCases` are the
code in its own form; their methods are proved against the functions of `Saving` and `Requests`, and `Saving.SaveIsARun`
and `UseCases.ServeIsARun` show that an uninterrupted call is one run of the protocol.

`RequestLaws` goes from a request to its answer, its row and its record, field by field, and states for the shipped
configuration which requests are answered and with what. `Reading` says over whole runs what is found under an
identifier, and `Responses` which JSON numbers an answer has.

## The history

`Base64Url` (section 5 of RFC 4648), `CursorText` and `Cursor` are the cursor codec. `Keyset` is one page, `PageWalk`
a walk over pages while the table changes, on keys alone; `History` adds rows and cursor texts, and `HistoryLaws`
states what a client sees. A walk is measured by its key, which falls with every page.

## Where code and documentation disagree

* The comment on the input cap, the repository's README and ADR 0013 call the JSON projection exact, and the schema
  says that a vehicle value is echoed exactly. For all vehicle values with k decimals that holds if and only if k is
  at most four (`JsonThreshold.VehicleValueDecimals`), but the decimals of a value are not limited: 99999999999.99999
  is lost, for 99999999999.99998 has the same binary64 and is closer to it (`JsonThreshold.LostValue`), and
  19999.99999999999999999999 is echoed as 20000 (`Counterexamples.VehicleValueNotEchoed`). For all numbers of k
  significant digits it holds if and only if k is at most 15 (`JsonThreshold.DigitsThreshold`), and a fraction that
  needs more than 17 is never carried (`ShortestPrinting.MoreThanSeventeenDigitsLost`). The `calculated_premium`
  reaches about 5 * 10^15 under the shipped rules: `Counterexamples.PremiumLosesACent`. For amounts in cents the exact
  boundary is `JsonThreshold.CentsThreshold`.
* The working context is documented to make quantisation the only rounding. It is, for a quotation, if and only if
  every step of the formulas has at most 80 digits (`ExactArithmetic.OnlyQuantisationRounds`);
  `Counterexamples.DeductibleRoundedTwice` is an accepted quotation for which it is not. The harm is bounded: under
  the shipped rules no figure is off by more than one unit of its last place (`ErrorBounds.WithinOneUnit`).

## How far the order of premiums reaches

The tests ask that a higher rate never has a lower premium when there is no deductible, and so it is, at any precision
(`PremiumOrder.PremiumFollowsRateWithoutDeductible`, `PremiumOrder.SteeperRulesNeverCheaper`). With a deductible the
rounding of the discount can reverse the order, because the discounts of two neighbouring bases may be rounded to
different units on the two sides of a power of ten. `PremiumOrder.PremiumThreshold` gives the exact condition: the
order holds for all deductibles up to a limit if and only if the limit is at most `DeductibleThreshold.Threshold`, a
little above 0.55 at 80 digits. Up to there the whole quotation is monotone (`PremiumOrder.QuotationMonotone`). Beyond
it `Counterexamples.HigherRateLowerQuote` shows two accepted quotations under the shipped rules in the wrong order.
`Conservation.PremiumMonotoneInRate` keeps the order for any deductible when no intermediate is rounded.

## Model

| member | source | states |
|---|---|---|
| Rounding.RoundMeets | src/car_insurance/domain/value_objects/rating_rules.py:119-123 | the sign-and-magnitude algorithm returns the one integer that meets the declarative promise of the mode, and no other integer meets it |
| Rounding.RoundMonotone | src/car_insurance/domain/value_objects/rating_rules.py:119-123 | all seven modes keep order, across zero and at ties |
| Quantisation.QuantizeValue | src/car_insurance/domain/value_objects/rating_rules.py:119-139 | quantising either refuses or returns the rounded value at the requested scale |
| Quantisation.QuantisedMonotone | src/car_insurance/domain/value_objects/rating_rules.py:119-139 | quantised values keep the order of the exact ones, in every mode |
| Quantisation.QuantisedIdempotent | src/car_insurance/domain/value_objects/rating_rules.py:119-139 | the result is a multiple of the unit and quantising again changes nothing |
| Quantisation.QuantisedFixes | src/car_insurance/domain/value_objects/rating_rules.py:119-139 | exactly the multiples of the unit are left alone |
| Quantisation.QuantisedError | src/car_insurance/domain/value_objects/rating_rules.py:119-139 | strictly within one unit, within half a unit in the HALF modes |
| Quantisation.QuantisedDifference | src/car_insurance/domain/value_objects/rating_rules.py:119-139 | quantising two amounts of one sign moves their difference by at most one unit |
| RatingRules.CheckMeaning | src/car_insurance/domain/value_objects/rating_rules.py:59-117 | the sequence of checks accepts exactly the rule sets that satisfy the declarative predicate, including bounds that are multiples of 10^-places |
| RatingRules.CheckReportsFirst | src/car_insurance/domain/value_objects/rating_rules.py:59-101 | rules with a fault are refused with the first of their faults |
| RatingRules.BoundReported | src/car_insurance/domain/value_objects/rating_rules.py:102-117 | a rate bound is refused for its digits after the point, or stops the check when it needs more than 28 digits |
| SignificantDigits.RoundSigMonotone | src/car_insurance/domain/calculation_context.py:18-26 | rounding to p significant digits never reverses an order |
| SignificantDigits.RoundSigExact | src/car_insurance/domain/calculation_context.py:18-26 | exactly the numbers with a p-digit coefficient are not rounded |
| SignificantDigits.RoundSigError | src/car_insurance/domain/calculation_context.py:18-26 | the relative error of one context rounding |
| Decimals.FixRounds | src/car_insurance/domain/calculation_context.py:18-26 | what the context does to a coefficient and exponent, digit by digit and with carry, is rounding half-even to the working precision, and the coefficient fits |
| Decimals.MulRounds | src/car_insurance/domain/services/rate_calculator.py:28-31 | a context product is the exact product rounded once |
| Decimals.AddRounds | src/car_insurance/domain/services/rate_calculator.py:32-33 | a context sum is the exact sum rounded once |
| Decimals.SubRounds | src/car_insurance/domain/services/premium_calculator.py:41-43 | a context difference is the exact difference rounded once |
| Decimals.IntegerDivideFloors | src/car_insurance/domain/services/rate_calculator.py:30 | for a non-negative dividend and a positive divisor the operator // is the floor of the real quotient, refused exactly when it has too many digits |
| Decimals.IntegerDivideTruncates | src/car_insurance/domain/services/rate_calculator.py:29-30 | the operator // truncates toward zero: the sign of an operand changes the sign of the quotient and nothing else |
| Decimals.IntegerDivideByZero | src/car_insurance/domain/services/rate_calculator.py:30 | there is no quotient by zero |
| Decimals.QuantizeRounds | src/car_insurance/domain/value_objects/rating_rules.py:119-123 | quantize is rounding to a whole number of units, refused exactly when that number has more digits than the context |
| RateLaws.RateMeaning | src/car_insurance/domain/services/rate_calculator.py:27-38 | the rate is the clamped, step-by-step rounded sum, quantised; it fails exactly when a number outgrows the context, and never in building the percentage |
| RateLaws.RateWithinBounds | src/car_insurance/domain/services/rate_calculator.py:34-38 | the applied rate is inside [minimum, maximum] after quantisation, in all seven modes |
| RateLaws.RateMonotone | src/car_insurance/domain/services/rate_calculator.py:28-38 | an older or more valuable vehicle, or a larger adjustment, never lowers the rate, with every intermediate rounding |
| MoneyLaws.DiscountWithinBase | src/car_insurance/domain/services/premium_calculator.py:39-43 | after rounding, a discount never exceeds its base: what remains is between zero and the base |
| MoneyLaws.PremiumMeaning | src/car_insurance/domain/services/premium_calculator.py:38-43 | the premium is the rounded formula quantised, or refused for its length |
| MoneyLaws.PremiumMonotone | src/car_insurance/domain/services/premium_calculator.py:38-43 | monotone in the fee and antitone in the deductible with no digit budget at all |
| MoneyLaws.PolicyLimitMeaning | src/car_insurance/domain/services/policy_limit_calculator.py:35-42 | both amounts are the rounded formulas, quantised separately |
| MoneyLaws.PolicyLimitMonotone | src/car_insurance/domain/services/policy_limit_calculator.py:35-42 | a higher deductible never lowers the deductible amount and never raises the limit |
| SimulationLaws.GuardMeaning | src/car_insurance/domain/aggregates/premium_simulation.py:90-114 | what the guards of the aggregate let through |
| SimulationLaws.GuardReportsFirst | src/car_insurance/domain/aggregates/premium_simulation.py:90-114 | each guard reports its own error, when it is the first to object |
| SimulationLaws.FiguresNonNegative | src/car_insurance/domain/aggregates/premium_simulation.py:116-133 | for every accepted input and valid rule set, no digit budget: premium, deductible amount and policy limit are never negative, in any mode |
| SimulationLaws.FullDeductibleCollapses | src/car_insurance/domain/services/premium_calculator.py:38-43 | at deductible 1 the figures collapse to the fee, the base and zero |
| SimulationLaws.SimulateErrors | src/car_insurance/domain/aggregates/premium_simulation.py:90-133 | a simulation is stopped only by a guard or by a number too long for the context |
| CalculationContext.CalculateFigures | src/car_insurance/domain/aggregates/premium_simulation.py:116-133 | the three services in blocks of their own compute the model function at 80 digits, and the precision found is put back on every path |
| CalculationContext.CalculateRate | src/car_insurance/domain/services/rate_calculator.py:27-38 | the statements of the rate calculator, with early exits, compute the rate at 80 digits and restore the context |
| ExactArithmetic.OnlyQuantisationRounds | src/car_insurance/domain/calculation_context.py:18-26 | every operation of the three calculators on a quotation returns its exact result if and only if every step of the formulas has at most the working number of digits |
| Counterexamples.DeductibleRoundedTwice | src/car_insurance/domain/services/policy_limit_calculator.py:35-42 | beyond 80 digits quantisation is not the only rounding: an accepted quotation whose deductible below half a cent becomes a cent |
| ErrorBounds.WithinOneUnit | src/car_insurance/domain/calculation_context.py:18-26 | under the shipped rules, with no limit on digits, the rate is within one unit of its formula and every amount within a cent of its quantised formula |
| ErrorBounds.ConservedWithinCent | src/car_insurance/domain/services/policy_limit_calculator.py:35-42 | under the shipped rules, for a value in cents and a deductible of any length, deductible_value + policy_limit misses the value by a cent at most |
| ErrorBounds.AdjustmentWithinUnit | src/car_insurance/domain/aggregates/premium_simulation.py:98-121 | under the shipped rules an adjustment of any length moves the rate by less than its size plus one unit |
| ExactArithmetic.PipelineRefinesFormulas | src/car_insurance/domain/calculation_context.py:18-26 | within the digit budget no step rounds or fails, and the figures are the quantised real-number formulas |
| DefaultRules.DefaultRulesValid | src/car_insurance/infrastructure/config/settings.py:39-75 | the shipped rule set passes its own checks |
| DefaultRules.DefaultBudget | src/car_insurance/domain/calculation_context.py:18-26 | under the shipped rules, 50 fractional digits in value and deductible together, and 50 in fee and adjustment each, keep every step exact |
| DefaultRules.DefaultIsExact | src/car_insurance/domain/services/premium_calculator.py:38-43 | so the shipped service computes the real-number formulas on all such quotations |
| DefaultRules.DefaultNeverFails | src/car_insurance/domain/calculation_context.py:18-26 | under the shipped rules no accepted quotation, however many digits it has, makes a step of the context fail |
| Conservation.ConservationError | src/car_insurance/domain/services/policy_limit_calculator.py:35-42 | deductible_value + policy_limit misses a representable base by exactly the stated number of units for each mode, tie and parity |
| Conservation.ConservationBound | src/car_insurance/domain/services/policy_limit_calculator.py:35-42 | for any base the error is at most one unit in the HALF modes and below two otherwise |
| Conservation.AdjustmentInfluence | src/car_insurance/domain/services/rate_calculator.py:33-38 | on exact formulas an adjustment moves the rate by at most its size plus one unit |
| Conservation.AdjustmentInfluenceOnRate | src/car_insurance/domain/aggregates/premium_simulation.py:98-121 | the same of the calculator, when the adjusted quotation has exact intermediates |
| DeductibleThreshold.OrderKept | src/car_insurance/domain/services/premium_calculator.py:39-43 | up to the threshold a larger base never leaves less after the rounded discount, at any precision |
| PremiumOrder.PremiumThreshold | src/car_insurance/domain/services/premium_calculator.py:38-43 | in all premiums with a deductible up to a limit a higher rate is never cheaper, if and only if the limit is at most the threshold, which lies between 0.55 and 0.6 |
| PremiumOrder.PremiumFollowsRateWithoutDeductible | src/car_insurance/domain/services/premium_calculator.py:38-43 | without a deductible a higher rate never lowers the premium, at any precision and with any fee |
| PremiumOrder.SteeperRulesNeverCheaper | tests/domain/test_properties_more.py:76-83 | without a deductible, of two rule sets that round money alike the one that gives the higher rate never gives the lower premium |
| PremiumOrder.QuotationMonotone | src/car_insurance/domain/aggregates/premium_simulation.py:116-133 | up to the threshold an older or more valuable vehicle, or more fee or adjustment, never lowers the rate, the premium, the deductible amount or the policy limit |
| Counterexamples.HigherRateLowerQuote | src/car_insurance/domain/services/premium_calculator.py:38-43 | above it, under the shipped rules: two accepted quotations, of which the older vehicle has the higher rate and the lower premium |
| JsonNumber.Injective | src/car_insurance/presentation/api/schemas.py:18-19 | numbers of at most 15 significant digits have different nearest binary64 numbers |
| JsonNumber.IntegralCarried | src/car_insurance/presentation/api/schemas.py:18-19 | whole numbers of any size and sign, zero included, and nothing else are emitted as integers, and they are carried |
| JsonNumber.FifteenDigitsCarried | src/car_insurance/presentation/api/schemas.py:18-19 | so they survive projection and shortest printing |
| JsonNumber.PrintingExists | src/car_insurance/presentation/api/schemas.py:18-19 | a shortest printing exists for each of them: the number itself without trailing zeros |
| JsonThreshold.DigitsThreshold | src/car_insurance/presentation/api/schemas.py:18-19 | all numbers of k significant digits, from zero on, survive projection and printing if and only if k is at most 15 |
| JsonThreshold.VehicleValueDecimals | src/car_insurance/presentation/api/schemas.py:42-48 | all vehicle values up to 10^11 with k decimals are echoed exactly if and only if k is at most four |
| JsonNumber.VehicleValueCarried | src/car_insurance/presentation/api/schemas.py:12-19 | every car value up to 10^11 with two decimals is echoed exactly |
| ShortestPrinting.AlwaysPrinted | src/car_insurance/presentation/api/schemas.py:18-19 | the nearest binary64 of any positive number has a shortest printing, of at most 17 digits |
| ShortestPrinting.MoreThanSeventeenDigitsLost | src/car_insurance/presentation/api/schemas.py:18-19 | a number that needs more than 17 digits, whole numbers excepted, is never carried |
| JsonNumber.LargeFractionLost | src/car_insurance/presentation/api/schemas.py:18-19 | no fractional amount between 2^52 and 2^53 is carried |
| Counterexamples.VehicleValueNotEchoed | src/car_insurance/presentation/api/schemas.py:42-48 | an accepted vehicle value with twenty decimals is echoed as a different number |
| JsonThreshold.CentsThreshold | src/car_insurance/presentation/api/schemas.py:12-19 | all amounts in cents from zero to a limit are printed, and printed exactly, if and only if the limit is below 70368744177664.01 |
| JsonThreshold.LostValue | src/car_insurance/presentation/api/schemas.py:42-48 | the vehicle value 99999999999.99999 is not carried |
| JsonThreshold.FirstLost | src/car_insurance/presentation/api/schemas.py:12-19 | one cent above 2^46 is printed as two cents above |
| Responses.AnswerCarried | src/car_insurance/presentation/api/schemas.py:22-25 | of every answer of the shipped service the rate, the deductible amount and the policy limit are carried, the premium up to 2^46, and the vehicle value with up to four decimals |
| Responses.ZeroFigures | src/car_insurance/presentation/api/schemas.py:18-19 | nothing deducted, and the limit of a full deductible, are sent as the integer 0 |
| Counterexamples.PremiumLosesACent | src/car_insurance/presentation/api/schemas.py:12-19 | an accepted quotation under the shipped rules whose premium loses a cent in the response |
| Requests.QuoteMeaning | src/car_insurance/application/use_cases/calculate_premium.py:71-112 | a request reaches the aggregate if and only if it passes the ceilings, the year, value and percentage checks and the provider answers; its quotation has the vehicle, fee and deductible of the request, the adjustment of the provider when there is a location and none otherwise, and the currency of the rules |
| Requests.QuoteReportsFirst | src/car_insurance/application/use_cases/calculate_premium.py:74-109 | a refused request is told of the first of its objections, and of no other |
| RequestLaws.PreparedAnswers | src/car_insurance/application/use_cases/calculate_premium.py:68-158 | a request that gets a simulation: every field of its answer, of its row and of its outbox record, from the request, the provider, the clock and the rules, the figures through their real-number meaning |
| RequestLaws.ServedRequest | src/car_insurance/application/use_cases/calculate_premium.py:114-158 | over a whole request with a fresh unit of work: the answer is that of the request, and whatever is stored is a new row and a new record beside it, field by field, currency included, which reads back as the answer; and exactly when it is stored |
| RequestLaws.NoCurrencyMismatch | src/car_insurance/application/use_cases/calculate_premium.py:81-90 | the use case never reports a currency mismatch |
| RequestLaws.ShippedAdmits | src/car_insurance/application/use_cases/calculate_premium.py:71-122 | under the shipped configuration a request gets a simulation if and only if value, fee, deductible, year and adjustment are in the stated ranges and the provider answers |
| RequestLaws.ShippedAnswer | src/car_insurance/application/use_cases/calculate_premium.py:144-158 | what the shipped service answers to numbers of any length: the rate within a unit and each amount within a cent of its formula, each in its own place |
| RequestLaws.ShippedAnswerIsExact | src/car_insurance/application/use_cases/calculate_premium.py:144-158 | the formulas themselves, for numbers within the digit budget |
| Requests.DefaultNeverInternalError | src/car_insurance/application/use_cases/calculate_premium.py:68-122 | under the shipped configuration a request is refused by a check or gets a simulation, never an arithmetic failure |
| UseCases.CalculatePremium.Execute | src/car_insurance/application/use_cases/calculate_premium.py:68-158 | one request: its answer, the database, the staged buffer, the restored context and the closed sessions, in terms of Prepare and Save |
| UseCases.RequestOutcome | src/car_insurance/application/use_cases/calculate_premium.py:124-134 | refused leaves everything as it was; answered under fail-closed has row and event committed; otherwise both are committed or neither |
| UseCases.ServeIsARun | src/car_insurance/application/use_cases/calculate_premium.py:124-158 | an uninterrupted request is a run of the concurrent protocol |
| Aggregate.Calculate | src/car_insurance/domain/aggregates/premium_simulation.py:76-162 | a simulation built from the figures with exactly its own event recorded, or the error of the first failing guard or service |
| Aggregate.PremiumSimulation.PullEvents | src/car_insurance/domain/aggregates/premium_simulation.py:164-169 | recorded events are handed over once |
| UnitsOfWork.UnitOfWork.StageEvents | src/car_insurance/infrastructure/persistence/unit_of_work.py:33-36 | events are appended to those already staged |
| UnitsOfWork.UnitOfWork.DrainEvents | src/car_insurance/infrastructure/persistence/unit_of_work.py:26-31 | all staged events are returned and the buffer is emptied |
| UnitsOfWork.UnitOfWork.Begin | src/car_insurance/infrastructure/persistence/unit_of_work.py:38-46 | a new session, or the fault of opening it |
| UnitsOfWork.UnitOfWork.End | src/car_insurance/infrastructure/persistence/unit_of_work.py:45-52 | commit on success, roll back on any error, close in any case: all of the work is stored or none |
| UnitsOfWork.OutboxEventPublisher.Publish | src/car_insurance/infrastructure/events/outbox_event_publisher.py:21-24 | publishing stages the events for the save that follows |
| SimulationRepository.WriteAll | src/car_insurance/infrastructure/persistence/sqlalchemy_repository.py:119-156 | the row is flushed before the buffer is drained, and every drained event becomes one record in order |
| SimulationRepository.SqlSimulationRepository.SaveSimulation | src/car_insurance/infrastructure/persistence/sqlalchemy_repository.py:115-158 | one save leaves the state of the protocol's save, and no session open |
| SimulationRepository.SqlSimulationRepository.GetSimulation | src/car_insurance/infrastructure/persistence/sqlalchemy_repository.py:76-84 | the stored row read back, or none; a database error is reported as such |
| SimulationRepository.SqlSimulationRepository.ListPage | src/car_insurance/infrastructure/persistence/sqlalchemy_repository.py:86-113 | one page; a bad cursor is refused before the query is sent |
| Saving.SaveOutcome | src/car_insurance/infrastructure/persistence/sqlalchemy_repository.py:115-158 | a save stores the row with all buffered events or nothing, empties the buffer or leaves it alone, and reports the first thing that went wrong: each with its exact condition |
| Saving.SaveIsARun | src/car_insurance/infrastructure/persistence/sqlalchemy_repository.py:115-158 | an uninterrupted save is a run of the protocol with the same database, buffer and ending |
| Persistence.OneStory | src/car_insurance/infrastructure/persistence/sqlalchemy_repository.py:46-61 | row, event and returned output of one simulation agree field for field |
| Persistence.AgreementIsExact | src/car_insurance/infrastructure/persistence/sqlalchemy_repository.py:138-153 | the figures in a payload read back as exactly those of the row, coefficient and exponent |
| DecimalText.DecimalRoundTrip | src/car_insurance/infrastructure/persistence/sqlalchemy_repository.py:142-146 | the text of a decimal determines it, in plain and scientific notation |
| DecimalText.NotationMeaning | src/car_insurance/infrastructure/persistence/sqlalchemy_repository.py:142-146 | scientific notation is used exactly for positive exponents and below 10^-6, and otherwise the point stands in front of as many digits as the exponent says |
| Persistence.CommitMeaning | src/car_insurance/infrastructure/persistence/unit_of_work.py:45-52 | committing one save adds its row and all its records, or is refused as a whole by the primary or the foreign key |
| Persistence.ConsistentAfterPair | src/car_insurance/infrastructure/persistence/models.py:24-58 | adding a new row with its one agreeing record keeps the tables consistent |
| OutboxProtocol.StepEffect | src/car_insurance/infrastructure/persistence/sqlalchemy_repository.py:115-158 | only the committing steps touch the database, and they add exactly one save |
| OutboxProtocol.FreshStep | src/car_insurance/presentation/api/dependencies.py:187-191 | every step of every worker keeps the invariant of request-scoped units of work, whatever the others do |
| OutboxProtocol.OneEventPerRow | src/car_insurance/infrastructure/persistence/sqlalchemy_repository.py:115-158 | in every reachable state, with failures, lost acknowledgements and crashes: one agreeing outbox record per row and none without a row |
| OutboxProtocol.BothOrNeither | src/car_insurance/application/use_cases/calculate_premium.py:124-134 | row and record exist together or not at all |
| OutboxProtocol.ReadBack | src/car_insurance/infrastructure/persistence/sqlalchemy_repository.py:76-84 | once stored, a simulation is read back as execute returned it, after any later steps |
| OutboxProtocol.ReturnedIsReadable | src/car_insurance/application/use_cases/calculate_premium.py:124-158 | under fail-closed, returning means the row and its record are stored and stay readable |
| OutboxProtocol.FreshCommitRefusedOnlyByKey | src/car_insurance/infrastructure/persistence/models.py:24-58 | with a fresh buffer a commit is refused if and only if the identifier is taken |
| Reading.FoundIsPublished | src/car_insurance/infrastructure/persistence/sqlalchemy_repository.py:76-84 | in every reachable state an identifier is found if and only if it has an outbox record, and what is found is the output of a simulation that some request published |
| Reading.UnpublishedIsNotFound | src/car_insurance/infrastructure/persistence/sqlalchemy_repository.py:76-84 | an identifier that was never published is not found |
| Reading.FailedIsNotFound | src/car_insurance/infrastructure/persistence/sqlalchemy_repository.py:76-84 | a save that failed without effect under an identifier of its own is never found, nor is a record of it |
| UnitOfWorkReuse.ReuseStep | src/car_insurance/infrastructure/persistence/unit_of_work.py:26-52 | the invariant of shared units of work, kept by every step |
| UnitOfWorkReuse.NoOrphanEver | src/car_insurance/infrastructure/persistence/models.py:35-37 | no reachable state stores an event without its row, or two for one row, however often a unit of work is reused by one request after another |
| SharedBuffers.SerialSharingConsistent | src/car_insurance/infrastructure/persistence/unit_of_work.py:26-52 | many requests, each with some unit of work: while a buffer serves one request at a time and no identifier is issued twice, every reachable state has one agreeing record per row and none without a row |
| SharedBuffers.SharingLosesEvent | src/car_insurance/infrastructure/persistence/unit_of_work.py:26-36 | without the first condition: a run from the initial state, nothing failing from outside, in which two requests in flight on one buffer leave a row without a record |
| SharedBuffers.CollisionDuplicatesEvent | src/car_insurance/infrastructure/persistence/unit_of_work.py:26-36 | without the second: every run that leaves two requests quiet can be continued, by an identifier issued twice, to a row with two records |
| UnitOfWorkReuse.StaleDrainFailsWhole | src/car_insurance/infrastructure/persistence/unit_of_work.py:26-52 | once more than one event has been drained, no commit is possible in any later state of the run, and the step that ends the request stores nothing |
| UnitOfWorkReuse.NextSaveFailsWhole | src/car_insurance/infrastructure/persistence/unit_of_work.py:26-52 | over runs: a save fails before its drain, the same unit of work drains next; then the buffer is empty and that request can only fail or crash as a whole, whatever other workers do meanwhile |
| Base64Url.EncodeMeaning | src/car_insurance/infrastructure/persistence/sqlalchemy_repository.py:43 | each group of four letters is the 24 bits of three bytes, most significant first, padded at the end |
| Base64Url.Alphabet | src/car_insurance/infrastructure/persistence/sqlalchemy_repository.py:43 | the letters are those of the URL-safe alphabet, in order |
| Base64Url.PaddingRules | src/car_insurance/infrastructure/persistence/sqlalchemy_repository.py:34 | one or two pads complete a group of three or two letters and end the text, others are ignored, and a group left incomplete is an error |
| Base64Url.PadForgotten | src/car_insurance/infrastructure/persistence/sqlalchemy_repository.py:34 | a single pad in the middle of a group is forgotten when a letter follows |
| Base64Url.DecodeCharMeaning | src/car_insurance/infrastructure/persistence/sqlalchemy_repository.py:34 | a letter is read as its place in that alphabet, or in the older one |
| Base64Url.RoundTrip | src/car_insurance/infrastructure/persistence/sqlalchemy_repository.py:43 | the lenient decoder gives back every byte string from its encoding |
| Base64Url.ForeignCharactersIgnored | src/car_insurance/infrastructure/persistence/sqlalchemy_repository.py:34 | characters outside both alphabets are skipped wherever they stand |
| Timestamps.InstantOrder | src/car_insurance/infrastructure/persistence/sqlalchemy_repository.py:91-102 | under one offset, points in time are ordered as the calendar and the clock order them, field by field |
| Timestamps.OffsetShiftsInstant | src/car_insurance/infrastructure/persistence/sqlalchemy_repository.py:98-102 | an offset to the east is so much earlier, and no offset is UTC |
| Timestamps.TickIsNext | src/car_insurance/infrastructure/persistence/sqlalchemy_repository.py:98-102 | the timestamps are all points in time up to the end of the year 9999: none is skipped and none is written twice |
| Timestamps.MonthStarts | src/car_insurance/infrastructure/persistence/sqlalchemy_repository.py:36 | the months start where the 153-day pattern has them, leap years included |
| Timestamps.KnownDays | src/car_insurance/infrastructure/persistence/sqlalchemy_repository.py:36 | four centuries are 146097 days, and 1970 begins on day 719163 |
| CursorText.IsoSpelling | src/car_insurance/infrastructure/persistence/sqlalchemy_repository.py:42 | date and time of day stand in the text where ISO 8601 has them |
| CursorText.MicroSpelling | src/car_insurance/infrastructure/persistence/sqlalchemy_repository.py:42 | microseconds are written, in six digits, only when there are some |
| CursorText.OffsetSpelling | src/car_insurance/infrastructure/persistence/sqlalchemy_repository.py:42 | the offset is written with its sign, and its seconds only when there are some |
| CursorText.UuidSpelling | src/car_insurance/infrastructure/persistence/sqlalchemy_repository.py:42 | an identifier is 32 hexadecimal digits in lower case with four dashes |
| CursorText.IsoRoundTrip | src/car_insurance/infrastructure/persistence/sqlalchemy_repository.py:36-42 | every timestamp is read back, with or without microseconds and offset |
| Digits.DigitValueMeaning | src/car_insurance/infrastructure/persistence/sqlalchemy_repository.py:36 | hexadecimal digits of an identifier are read in either case |
| CursorText.UuidRoundTrip | src/car_insurance/infrastructure/persistence/sqlalchemy_repository.py:36-42 | every identifier is read back |
| Cursor.RoundTrip | src/car_insurance/infrastructure/persistence/sqlalchemy_repository.py:32-43 | decoding an encoded cursor gives back creation time and identifier |
| Cursor.Injective | src/car_insurance/infrastructure/persistence/sqlalchemy_repository.py:41-43 | different positions have different cursors |
| Cursor.DecodeMeaning | src/car_insurance/infrastructure/persistence/sqlalchemy_repository.py:32-38 | decoding succeeds if and only if the text is base64url of a timestamp, a bar and an identifier; anything else is an invalid cursor |
| Cursor.ForeignCharactersIgnored | src/car_insurance/infrastructure/persistence/sqlalchemy_repository.py:34 | a cursor is not spelled uniquely: foreign ASCII characters in it do not matter |
| Keyset.DescendingMeaning | src/car_insurance/infrastructure/persistence/sqlalchemy_repository.py:91-94 | the ordering clause: a strictly descending sequence of exactly the rows |
| Keyset.QueryMeaning | src/car_insurance/infrastructure/persistence/sqlalchemy_repository.py:91-104 | the limited query returns the greatest matching rows and leaves out nothing greater |
| Keyset.PageMeaning | src/car_insurance/infrastructure/persistence/sqlalchemy_repository.py:104-107 | a page is the top of what is left, with a next key exactly when something is left after it |
| PageWalk.WalkDescends | src/car_insurance/infrastructure/persistence/sqlalchemy_repository.py:86-111 | keys strictly descend over a whole walk, whatever happens to the table |
| PageWalk.WalkCovers | src/car_insurance/infrastructure/persistence/sqlalchemy_repository.py:86-111 | a row in the table from the start of a walk on is returned |
| PageWalk.FixedTable | src/car_insurance/infrastructure/persistence/sqlalchemy_repository.py:91-111 | on a fixed table the pages put together are the sorted table |
| PageWalk.PageCount | src/car_insurance/infrastructure/persistence/sqlalchemy_repository.py:104-107 | in exactly max(1, ceil(n / limit)) pages |
| History.Clamp | src/car_insurance/application/use_cases/list_simulations.py:21 | the page size used is the number between 1 and 100 nearest to the one asked for |
| History.ListMeaning | src/car_insurance/infrastructure/persistence/sqlalchemy_repository.py:86-111 | a page fetched with a cursor text is the page of the key it stands for, and so is its next cursor |
| History.InvalidCursorRefused | src/car_insurance/infrastructure/persistence/sqlalchemy_repository.py:95-97 | a listing is served if and only if the cursor is base64url of a timestamp, a bar and an identifier; any other text is refused by name |
| History.FollowCursors | src/car_insurance/application/use_cases/list_simulations.py:18-22 | a client following cursor texts gets the pages of the walk on keys; no cursor is refused and the walk ends |
| HistoryLaws.HistoryDescends | src/car_insurance/infrastructure/persistence/sqlalchemy_repository.py:91-103 | what a client receives strictly descends in creation time and identifier |
| HistoryLaws.NoRowTwice | src/car_insurance/infrastructure/persistence/sqlalchemy_repository.py:86-111 | no simulation is returned twice |
| HistoryLaws.EveryRowOnce | src/car_insurance/infrastructure/persistence/sqlalchemy_repository.py:86-111 | every row present at the start is returned exactly once, as stored, with any page sizes and any saves meanwhile |
| HistoryLaws.FixedHistory | src/car_insurance/infrastructure/persistence/sqlalchemy_repository.py:91-111 | the whole listing on a fixed table: sorted, in max(1, ceil(rows / limit)) pages |
| HistoryLaws.HistoryDuringRun | src/car_insurance/infrastructure/persistence/sqlalchemy_repository.py:76-111 | paging while the protocol runs returns every simulation stored at the start once, as execute returned it |

## Left out

- Settings, environment parsing, dependency wiring other than the scope of the unit of work, HTTP routes and schemas, health probes, logging, request identifiers: plumbing.
- The geographic HTTP provider: it is a parameter that returns an adjustment or is unavailable. The clock and the source of identifiers are parameters too.
- Text, country and currency-letter checks, upper-casing of currency codes, names of rounding modes, and the checks that a number is a finite decimal: `RatingRules.Rules` holds values that passed them. Request numbers are decimals already; coercing a number through its text is not modelled.
- Signed zero, NaN, infinities and exponent limits of decimals; subnormal and overflowing binary64 numbers.
- SQL text, drivers, pooling and isolation levels: a page or a row is read from the committed rows of one moment, a transaction is a private copy with an atomic commit, and the primary key is checked again when it commits.
- The identifier and creation time the database gives an outbox record, and column length limits: a violation of the latter is one of the faults a flush may meet.
- The null repository, the logging publisher and a unit of work without a session factory, which are used when persistence is disabled.
- Conversion of stored timestamps to the zone of a database session: rows keep the offset they were written with, and listing compares points in time.
- CursorText.IsoRoundTrip: offsets are whole seconds, because a zone with fractional seconds does not occur in a stored timestamp; reading accepts only the spelling that `isoformat` writes, so foreign cursors in other ISO 8601 spellings count as invalid here.
- CursorText.UuidRoundTrip: reading ignores dashes but not braces, the `urn:` prefix, underscores or digits of other scripts.
- Cursor.DecodeMeaning: bytes outside ASCII are never part of a cursor, because neither half of its text can contain them in the accepted spellings.
- SimulationRepository.SqlSimulationRepository.SaveSimulation: runs without interruption; interleaving is the subject of the protocol.
