# Verified core of Retail Intelligence AI

A Dafny model of the parts of the product where a small slip costs somebody
money, access or a secret, and proofs of what those parts promise:

- **Exact decimal arithmetic** (`src/lib/money.ts`): half-away rounding, tax on
  and out of a price, the two apportioning algorithms, the printer and parser.
- **Clients of that arithmetic**: the compact figure on a KPI tile
  (`src/lib/format.ts`) and the demo company's opening entry
  (`prisma/seed/demo-company.ts`).
- **Role reconciliation** (`prisma/seed/permissions.ts`, `prisma/seed/lock.ts`):
  any number of seeders writing templates under one lock and sweeping tenants
  outside it, one SQL statement at a time, beside company creation, deletion and
  everybody else's statements.
- **The product picker's search protocol**
  (`src/components/documents/product-picker.tsx`).
- **Redaction** (`src/lib/redaction.ts`) over shared and cyclic values,
  **navigation matching** (`src/lib/navigation.ts`), and the **demo calendar**
  (`prisma/seed/demo-trading.ts`).

Check everything with `dafny verify dfyconfig.toml --resource-limit 2000000
--verification-time-limit 0`.

## How to read it

| file | what it holds |
|---|---|
| `Rounding.dfy` | the two rounding modes and their laws |
| `Products.dfy` | single facts about products and quotients that the proofs name |
| `Amounts.dfy` | `money.ts` up to `roundOffDifference`; a `Decimal` is an exact value in rupees, an `Amount` the count of 0.0001 units that rounding leaves |
| `Precision.dfy` | why decimal.js's 34 digits may be left out of the other modules |
| `Allocation.dfy` | `allocate`, `allocateByWeight` |
| `StorageText.dfy` | `toStorageString`, the string branch of `toDecimal` |
| `CompactDisplay.dfy` | `formatCurrencyCompact` as a number |
| `OpeningEntry.dfy` | the opening loop and journal, through storage strings |
| `RoleTables.dfy` | the tables and the two sync statements |
| `TemplateSeeding.dfy` | what one locked transaction writes |
| `RoleSync.dfy` | the seed and the sweep loop in place, with deletions and faults |
| `SeedProtocol.dfy` | all of it at once, as a step system over every interleaving |
| `ProductPicker.dfy` | the component's refs in place, and its runs |
| `Redaction.dfy`, `Navigation.dfy`, `DemoCalendar.dfy` | one source file each |

Values that are computed are functions, and the lemmas about them carry the
claims. What the source updates in place is a class or a method: `Allocate` and
`AllocateByWeight` work on arrays, `RoleSync.Database` and
`ProductPicker.Picker` on fields, `SeedOpening`, `RedactValue`, `ActiveHref` and
`SeedDemoTrading` in loops; each is proved against a function or an outright
description of its result.

## Where the code and its description part ways

- `SplitConserves`: net and tax add up to the inclusive amount except for a rate
  below -100 on an amount that is a rounding tie.
- `TaxRoundTripExactly` and `RatesThatRoundTrip`: extracting undoes charging at
  every rate from 0 up and at every rate from -200 down; at each rate between them
  some net loses a unit, as 0.0001 does at -50 (`HalfRebateLosesAUnit`).
- `ByWeightConserves`: with no weights at all there is no line to carry the
  amount, so a non-zero one is lost.
- `FaultMeansGone`: the sweep reads a foreign-key fault as "the company is gone",
  which it is unless a permission was deleted between the reading and the writing
  of the INSERT, as
  `prisma/migrations/20260816120000_remove_unenforced_permissions/migration.sql`
  deletes some. `VanishedPermissionSkipsLivingCompany` is such a case;
  `TurnRepairs` and `SweepOutcome` say exactly which companies a fault leaves out
  of line. In the step system any statement may meet a vanished row, and a sweep
  records the companies it passed over at a role statement.
- `OutputIsBounded` and `RedactionIsIdempotent` hold exactly when no over-long
  bigint, symbol or function is written out, because `String(value)` is not
  shortened. An entry called `__proto__` makes no own property of the result, so
  it is dropped.
- `OpeningOnRunDayFailsInSpring`: opening the books on the run day would leave
  the first bill outside the calendar from 1 April to 5 July, a little longer
  than the "first three months" the comment mentions.
- `demo-company.ts` reports `residual`, the total minus itself, as a check on the
  opening entry; `SeedOpening` states the balance over the journal lines instead.

## Model

| member | source | states |
|---|---|---|
| Rounding.RoundHalfAway | src/lib/money.ts:23-28 | the nearest whole unit, and on a tie the one further from zero: the contract leaves one possible result |
| Rounding.TruncTowardZero | src/lib/money.ts:276-278 | the whole units between zero and the value, nearest the value |
| Rounding.RoundShift | src/lib/money.ts:111-116 | rounding commutes with taking away whole units if and only if no tie is carried across zero |
| Amounts.FoldsAreNearest | src/lib/money.ts:126-154 | `add` and `multiply` give the amount nearest the exact sum and product, ties away from zero, every argument counted once |
| Amounts.SubtractIsNearest | src/lib/money.ts:135-145 | each value is taken away in turn, and the exact difference rounded once |
| Amounts.PercentIsNearest | src/lib/money.ts:164-167 | for values of any precision: the amount nearest value times percent over 100 |
| Amounts.DivideIsNearest | src/lib/money.ts:156-162 | the amount nearest the exact quotient, and a RangeError if and only if the divisor is zero |
| Amounts.TaxIsNearest | src/lib/money.ts:175-185 | for inclusive amounts of any precision: the amount nearest inclusive times rate over 100 + rate, and nothing at -100 |
| Amounts.TaxRoundTrip | src/lib/money.ts:165-196 | for every stored net, of either sign, and every rate from 0 up: extracting from net plus tax gives back exactly that tax and that net |
| Amounts.TaxRoundTripExactly | src/lib/money.ts:165-196 | for every stored net and every rate, negative ones too: the round trip holds if and only if 200 times the error of rounding the tax is smaller in size than 100 + rate, or as large and pulling the tax to zero; at -100 only for nothing |
| Amounts.RatesThatRoundTrip | src/lib/money.ts:165-196 | a rate round-trips every net if and only if it is at least 0 or at most -200 |
| Amounts.HalfRebateLosesAUnit | src/lib/money.ts:165-185 | at -50 per cent, 0.0001 does not round-trip |
| Amounts.SplitConserves | src/lib/money.ts:175-196 | net plus tax is the rounded inclusive amount, however fine the amount, if and only if not (rate below -100 and the amount a tie) |
| Amounts.SplitAccuracy | src/lib/money.ts:165-196 | re-applying the rate to the extracted net misses the tax by at most (100 + rate)/200 + 1/2 units, and by at most one unit up to 200 per cent |
| Amounts.OneUnitUpTo200 | src/lib/money.ts:165-196 | of the rates from 0 up, one unit is enough for every stored inclusive amount if and only if the rate is at most 200 |
| Amounts.MaxIsRoundedMaximum | src/lib/money.ts:219-224 | rounding inside the fold while comparing unrounded candidates still gives the rounded exact maximum |
| Amounts.MinIsRoundedMinimum | src/lib/money.ts:226-231 | the same for the minimum |
| Amounts.MaxMinIgnoreOrder | src/lib/money.ts:219-231 | permuting the arguments changes neither |
| Amounts.EmptyExtremes | src/lib/money.ts:219-231 | without arguments both are zero |
| Amounts.AddDrift | src/lib/money.ts:126-133 | adding n values then rounding is within (n+1)/2 units of rounding each and adding |
| Amounts.PercentDrift | src/lib/money.ts:165-167 | tax line by line is within (n+1)/2 units of tax on the total |
| Amounts.DivideThenMultiply | src/lib/money.ts:147-162 | dividing and multiplying back by any non-zero d moves a stored amount by at most (abs(d)+1)/2 units |
| Amounts.RoundOffReachesRupee | src/lib/money.ts:256-259 | amount plus round-off is a whole rupee, at most half a rupee away, away from zero on a half, and zero only for whole rupees |
| Precision.PrecisionIsInvisible | src/lib/money.ts:23-28 | for every quotient with a numerator below 2·10^28, rounding decimal.js's 34-digit result to four decimals, half away or down, equals rounding the exact quotient |
| Precision.ThirtyFourDigits | src/lib/money.ts:23-28 | the 34-digit quotient is 34 digits with the point moved, the nearest such to the exact quotient |
| Precision.FifthDecimalKept | src/lib/money.ts:19-28 | the 34-digit quotient and the exact one agree to the fifth decimal |
| Allocation.Allocate | src/lib/money.ts:269-292 | fails exactly for a part count that is not a positive integer; otherwise returns the reference even split, the loop ending with nothing left and before the index reaches the part count |
| Allocation.BaseShare | src/lib/money.ts:274-278 | the truncated real quotient is the magnitude's integer quotient with the sign of the total |
| Allocation.EvenSharesAreFair | src/lib/money.ts:261-292 | shares sum to the total, differ by at most one unit, larger magnitudes first, all of the total's sign; the negated total gives the negated shares |
| Allocation.EvenSharesUnique | src/lib/money.ts:261-292 | no other list of shares, of either sign, meets those conditions |
| Allocation.AllocateByWeight | src/lib/money.ts:298-331 | every line but the last gets its proportion rounded down, the last the rest; an even split when the weights add up to zero; nothing for no lines |
| Allocation.ByWeightConserves | src/lib/money.ts:294-331 | the shares sum to the amount if and only if there is a line or the amount is zero, whatever the weights |
| Allocation.ByWeightIsFair | src/lib/money.ts:298-331 | for non-negative stored weights and amount: no share negative, every line but the last within one unit below its exact proportion, the last at or above its own by less than one unit per other line, exactly its own when alone |
| Allocation.ByWeightTruncates | src/lib/money.ts:313-318 | whatever the signs and precision of the weights, every line but the last gets its exact proportion truncated |
| Allocation.WeightlessIsFair | src/lib/money.ts:306-311 | with weights that add up to zero the split is even, to the unit |
| Allocation.ZeroWeightLastLineTakesLeftover | src/lib/money.ts:325-328 | the leftover can land on a line without weight |
| Allocation.ByWeightOdd | src/lib/money.ts:298-331 | negating the amount negates every share |
| StorageText.StorageShape | src/lib/money.ts:333-336 | a sign exactly when negative, a whole part without leading zeros, a point, exactly four fraction digits |
| StorageText.PrintParseRoundTrip | src/lib/money.ts:69-108 | reading back a printed value gives its stored amount |
| StorageText.PlainTextReads | src/lib/money.ts:99-105 | sign, digits, point, digits: ten to the number of fraction digits times the value read is the number the digits spell, signed |
| StorageText.DigitAppended | src/lib/money.ts:99-105 | a digit reads as itself, and appending one to a whole number makes ten times the number and the digit |
| StorageText.PointMoves | src/lib/money.ts:99-105 | moving the point one digit to the right makes ten times the number |
| StorageText.SignsRead | src/lib/money.ts:99-105 | a plus changes nothing, a minus negates |
| StorageText.OnlyPlainTextReads | src/lib/money.ts:99-108 | of the texts left after trimming and taking out commas, the empty one and a lone minus read as zero, and any other is read if and only if it is plain |
| StorageText.PrintIsInjective | src/lib/money.ts:333-336 | two values print alike if and only if they round to one amount |
| StorageText.ParsingIgnoresSpaceAndCommas | src/lib/money.ts:99-102 | white space around and commas anywhere inside any space-free text do not change what it parses to |
| StorageText.RegroupedAmountReadsBack | src/lib/money.ts:99-108 | a printed amount regrouped and padded at will reads back as the same amount |
| StorageText.TrimAndCommasCommute | src/lib/money.ts:99-102 | for every text: trimming before or after the commas go is the same if and only if the trimmed text without its commas has no space at either end; where it is not, the text is refused |
| StorageText.CommaShieldsSpace | src/lib/money.ts:99 | a comma can keep a space in, so ", 1" is refused |
| CompactDisplay.ShownStep | src/lib/format.ts:48-71 | the shown figure is a nearest multiple of the last digit of its suffix, with the amount's sign |
| CompactDisplay.SuffixBySize | src/lib/format.ts:48-71 | K from 1,000 rupees, L from 1,00,000, Cr from 1,00,00,000, by the stored amount; a minus if and only if a negative figure is shown |
| CompactDisplay.CompactIsMonotone | src/lib/format.ts:48-71 | a larger amount is never shown as a smaller figure, across every suffix boundary and sign |
| CompactDisplay.CompactIsOdd | src/lib/format.ts:53-59 | negating the amount negates what is shown |
| CompactDisplay.CompactAccuracy | src/lib/format.ts:32-71 | off by at most half a paisa below 1,000 rupees and at most 0.5 per cent from there |
| CompactDisplay.HundredIsShown | src/lib/format.ts:61-65 | exactly the amounts from 99,995 read 100K, and from 99,99,500 read 100L |
| OpeningEntry.SeedOpening | prisma/seed/demo-company.ts:386-443 | aborts exactly when a unit is unknown, naming the first; otherwise one balance and one movement row per product whose value reads as the amount nearest quantity times price, an inventory debit reading exactly the sum of those rows, and the five lines of an entry whose debits equal its credit |
| OpeningEntry.WholeQuantity | prisma/seed/demo-company.ts:411 | a whole quantity at a stored price is valued at exactly their product |
| OpeningEntry.AccumulatedTextReads | prisma/seed/demo-company.ts:411-412 | one pass through text adds the line value and nothing else |
| OpeningEntry.EntryBalances | prisma/seed/demo-company.ts:529-584 | the five journal lines balance at the sum of the four assets |
| OpeningEntry.StockValueIgnoresOrder | prisma/seed/demo-company.ts:386-412 | reordering the products leaves the opening stock value as it is |
| RoleTables.GrantKeeps | prisma/seed/permissions.ts:216-231 | a grant of any scope keeps a role covered or in line, and covers the roles it reaches |
| RoleTables.RevokeKeeps | prisma/seed/permissions.ts:233-251 | a revoke of any scope keeps both, and brings covered roles it reaches in line |
| RoleTables.StatementsStayInScope | prisma/seed/permissions.ts:226-240 | custom roles and roles outside the scope are out of reach of both statements |
| RoleTables.SyncIsIdempotent | prisma/seed/permissions.ts:211-254 | a second sync changes no row and counts none |
| RoleTables.SyncsCommute | prisma/seed/permissions.ts:155-158 | syncs of two companies, or of one and of all, give the same tables in either order |
| RoleTables.SyncHoldsExactly | prisma/seed/permissions.ts:211-254 | after a sync a system role in scope holds a permission if and only if some system template row of its key does; every other role holds what it held |
| RoleTables.SyncBringsInLine | prisma/seed/permissions.ts:199-210 | afterwards every system role in scope holds exactly its template's permissions, and no other company is taken out of line |
| TemplateSeeding.CatalogueStep | prisma/seed/permissions.ts:70-82 | upserting keeps every permission id and every template row |
| TemplateSeeding.SeedOneStep | prisma/seed/permissions.ts:84-122 | writing one more template: it matches its definition, earlier ones still do, all other rows and grants stay, no second row for a key |
| TemplateSeeding.MatchedHoldings | prisma/seed/permissions.ts:110-121 | a written template holds the permissions its definition names, those the catalogue knows, and no others |
| TemplateSeeding.SeededHoldings | prisma/seed/permissions.ts:84-122 | after a seed each template row has its definition's name and grants of exactly the permissions named there |
| TemplateSeeding.ReseedingChangesNothing | prisma/seed/permissions.ts:14-17 | a second seed of a release leaves every row, id and grant as the first did |
| RoleSync.Database.SeedTemplates | prisma/seed/permissions.ts:69-128 | the loops over catalogue and templates, in place: one row per key granting exactly the permissions its definition names, everything else kept |
| RoleSync.Database.SyncCompanySystemRoles | prisma/seed/permissions.ts:211-254 | both statements in place; granted counts the selected rows that were missing, revoked the stale rows left after the grant; the scope is in line afterwards |
| RoleSync.Database.SyncOne | prisma/seed/permissions.ts:167-178 | the try block with deletions between its statements and a fault at any of them |
| RoleSync.Database.SyncExistingTenants | prisma/seed/permissions.ts:160-197 | the loop: vanished rows skipped, any other fault thrown, totals over exactly the companies whose two syncs completed |
| RoleSync.FaultsSkipOrThrow | prisma/seed/permissions.ts:167-197 | a pass completes if nothing goes wrong; its first fault skips the company if and only if its code is P2003, P2025 or 23503, and is thrown otherwise |
| RoleSync.SweepReach | prisma/seed/permissions.ts:167-181 | the sweep goes through its whole list unless a pass throws, and ends with the one that does |
| RoleSync.TotalsAreColumnSums | prisma/seed/permissions.ts:162-175 | each of the four totals is the sum of its own figure over the completed passes |
| RoleSync.CompletedCounts | prisma/seed/permissions.ts:169-175 | a completed pass counts the rows its INSERT added, the rows its DELETE took away, and the chart's figures |
| RoleSync.QuietSweepAccounts | prisma/seed/permissions.ts:160-182 | with no fault and no deletion, the rows there are now are those there were, plus granted, less revoked |
| RoleSync.TurnKeeps | prisma/seed/permissions.ts:167-178 | one pass takes no company out of line and brings its own in line unless a role statement faulted |
| RoleSync.SweepBringsInLine | prisma/seed/permissions.ts:146-158 | wherever the sweep stops and whatever is deleted meanwhile, each company it reached whose role statements ran is in line |
| RoleSync.CleanSweepBringsAllInLine | prisma/seed/permissions.ts:155-158 | a run without faults, such as the rerun after one, reaches and repairs every company |
| RoleSync.TurnRepairs | prisma/seed/permissions.ts:167-178 | one pass leaves its company in line if and only if both role statements ran, or the one that faulted had nothing to do for it, or it is gone |
| RoleSync.SweepOutcome | prisma/seed/permissions.ts:146-178 | wherever the sweep stops, a surviving company ends in line if and only if it was so before, or its two statements ran, or its grant ran and it had nothing to revoke |
| RoleSync.FaultMeansGone | prisma/seed/permissions.ts:184-197 | a grant meets a missing row if and only if it selected any and the company is gone or one of the permissions is |
| RoleSync.VanishedPermissionSkipsLivingCompany | prisma/seed/permissions.ts:184-197 | one of two permissions deleted under the INSERT: the living company is skipped and stays without the other |
| SeedProtocol.NextKeepsInv | prisma/seed/permissions.ts:61-182 | every action of every seeder and of everybody else keeps the invariant |
| SeedProtocol.AloneInTransaction | prisma/seed/lock.ts:30-45 | throughout a seeder's transaction no other seeder is in one, and the rows it read at the start are still the committed ones |
| SeedProtocol.AlwaysOnePerKey | prisma/seed/permissions.ts:84-108 | in no state of any run does a key have two template rows |
| SeedProtocol.CommitsAreSerial | prisma/seed/permissions.ts:67-128 | each commit turns the committed rows into what its release makes of the rows just before it, as if alone |
| SeedProtocol.UnlockedSeedersCollide | prisma/seed/lock.ts:3-15 | a run without the lock: both seeders read the absence of a key, one commits its row, and the row the other creates is one that the unique index rejects |
| SeedProtocol.SyncConverges | prisma/seed/permissions.ts:155-158 | over every interleaving: once a grant and then a revoke have reached a company, by whichever sweep or migration, it is in line in every later state up to the next template commit |
| SeedProtocol.SweepConverges | prisma/seed/permissions.ts:138-178 | a company whose pass began after the last template commit and was not passed over is in line, whenever the sweep listed its companies |
| SeedProtocol.FinishedSweepCoversAll | prisma/seed/permissions.ts:138-178 | once a sweep that listed after the last template commit has finished, every company that existed when it listed is in line, unless the sweep met a vanished row at one of its role statements |
| SeedProtocol.ConvergesToLastRelease | README.md:722-734 | after a seeder's commit and until the next one, the roles of the companies it has passed hold exactly the permissions that its release names for their key |
| SeedProtocol.CustomRolesUntouched | prisma/seed/permissions.ts:226-240 | no seeder and no sync statement changes a role the company made itself |
| ProductPicker.NextKeepsInv | src/components/documents/product-picker.tsx:65-101 | typing, opening, a firing timer, a reply and a failure each keep the protocol invariant |
| ProductPicker.Picker.StartSearch | src/components/documents/product-picker.tsx:74-91 | the refs after runSearch: the held timer gone, one new timer under the next request number, spinner on |
| ProductPicker.Picker.OnOpenChange | src/components/documents/product-picker.tsx:93-96 | searches only on opening with an empty list |
| ProductPicker.Picker.Resume | src/components/documents/product-picker.tsx:80-87 | a reply is applied only while its request is the latest; either way the spinner goes off only for the latest |
| ProductPicker.RequestsCarryTheirTerms | src/components/documents/product-picker.tsx:74-102 | in every run the n-th search started is request n, and carries what was typed, or nothing for an opening with an empty list, for as long as it waits or is in flight |
| ProductPicker.OneTimer | src/components/documents/product-picker.tsx:74-89 | at most one timer is pending, under the latest request number |
| ProductPicker.AppliedInOrder | src/components/documents/product-picker.tsx:81-84 | every reply shown was the latest request's at that moment, so their numbers strictly increase |
| ProductPicker.LoadingIsExact | src/components/documents/product-picker.tsx:77-87 | the spinner is on if and only if the latest request waits or is in flight, so off when nothing is pending |
| ProductPicker.ResultsAreLatestReply | src/components/documents/product-picker.tsx:81-87 | once the latest request has succeeded the list is its reply; until then it is the last reply shown |
| ProductPicker.QuietEnding | src/components/documents/product-picker.tsx:74-91 | from any point of any run, letting the timer fire and the search answer leaves that answer and no spinner |
| Redaction.RedactValue | src/lib/redaction.ts:28-58 | the slice, map and record loop terminate on cyclic values and compute the redaction |
| Redaction.ContentSurvives | src/lib/redaction.ts:28-58 | a path of at most six steps through keys that are not sensitive and the first 50 items leads in the output to what it leads to in the input: scalars as they are, a text of up to 2,000 characters whole and a longer one cut there, arrays and objects with their items and keys; a seventh step reads [truncated] |
| Redaction.SensitiveNames | src/lib/redaction.ts:16-17 | a key is sensitive if and only if it is one of eleven names in any mixture of cases |
| Redaction.OutputIsBounded | src/lib/redaction.ts:19-36 | at most 7 nested containers, 50 items, 2,001 characters, if and only if every bigint, symbol or function written out is that short |
| Redaction.OutputIsScrubbed | src/lib/redaction.ts:45-47 | at every level a sensitive key reads [redacted] |
| Redaction.SecretsDoNotShow | src/lib/redaction.ts:10-17 | values and heaps that differ only under sensitive keys give equal output, cycles included |
| Redaction.RedactionIsIdempotent | src/lib/redaction.ts:28-58 | redacting twice changes nothing if and only if every bigint, symbol or function written out is one that shortening leaves alone |
| Redaction.LongBigintIsNotStable | src/lib/redaction.ts:52-57 | a bigint of 2,001 digits is such an exception |
| Navigation.ActiveHref | src/lib/navigation.ts:439-453 | null if and only if nothing matches, otherwise a matching href that no match exceeds in length |
| Navigation.LongestMatchIsUnique | src/lib/navigation.ts:431-438 | there is only one such href, because equal-length matches are one prefix of the path |
| Navigation.OrderDoesNotMatter | src/lib/navigation.ts:439-453 | reordering or repeating targets cannot change the answer |
| Navigation.ClaimedPaths | src/lib/navigation.ts:434-447 | an exact target claims its own path only; another claims its descendants and no sibling that merely starts alike |
| DemoCalendar.YearOf | prisma/seed/demo-company.ts:538-546 | the year a day lies in, in the calendar of ECMAScript |
| DemoCalendar.OpeningStartsFiscalYear | prisma/seed/demo-company.ts:536-546 | the opening date is the 1 April that starts the fiscal year the books opened in |
| DemoCalendar.RoundedAgeIsClose | prisma/seed/demo-trading.ts:276 | the rounded age of a bill is its days, or one more from noon on |
| DemoCalendar.SettlementFits | prisma/seed/demo-trading.ts:249-346 | a settlement placed back from the run is on or after its document and at least one day before the run |
| DemoCalendar.SeedDemoTrading | prisma/seed/demo-trading.ts:98-357 | for every run instant and every draw: all documents within the calendar on their planned dates; every receipt, payment and return settles a credit invoice or bill of this history, on its planned date, on or after the document's and at least one day before the run |
| DemoCalendar.PayBills | prisma/seed/demo-trading.ts:265-293 | pays exactly the first two credit bills, where they have a supplier, 81 and 39 days before the run, or one more from noon on |
| DemoCalendar.OpeningOnRunDayFailsInSpring | prisma/seed/demo-trading.ts:47-67 | opening the books on the run day would fail exactly from 1 April to 5 July |

## Left out

- Numbers as inputs of `toDecimal`: IEEE floats and their `toString` are not part of this model, nor is `toNumber`; null, undefined and foreign Decimals are the values they stand for.
- decimal.js notations beyond plain digits (exponents, hexadecimal, underscores, Infinity, NaN): `StorageText.ToDecimal` answers NotPlain, where decimal.js either reads them or throws.
- Precision of products: `total * weight` in `allocateByWeight` can need 36 digits and is taken as exact; `PrecisionIsInvisible` covers the quotients with numerators below 2·10^28, which is every other division of stored amounts.
- Negative zero: `-0` prints and compares as zero, and only the locale text of a compact figure could show it.
- `formatCurrency` and `formatCurrencyCompact` as text, and any currency but rupees: the Intl library decides it.
- `compare`, `equals`, `isZero`, `isNegative`, `isPositive`, `abs`, `negate`, `sum`, `sumBy`: one-line uses of the functions modelled here.
- RoleTables: a statement is one atomic step over sets of rows; row locks, isolation anomalies inside one statement and network faults are not modelled.
- Chart reconciliation: an outside step that reports counts, a vanished row or another fault; its code is not part of this model.
- Deleting permissions beside a running seed: in the step system only the fault it causes in a statement; the deletion itself is not one of its actions.
- Role descriptions, permission modules and descriptions: columns nothing else depends on.
- SeedProtocol: provisioning may add any company with any rows; what it copies is not part of this model. A company created after a sweep listed its companies is not covered by that sweep.
- ProductPicker: unmounting, rendering, the query text on screen, the 180 ms of the timer; `results` is read when the event happens rather than when the handler was rendered.
- Redaction: strings are sequences of characters, so a cut through a surrogate pair is not modelled, and dates are valid ones.
- Navigation: `isPermitted`, `isIncludedInPlan`, `visibleSections`, `visibleQuickActions` are single filters.
- DemoCalendar: the pseudo-random sequence is replaced by arbitrary draws, and amounts, stock and the services that post the documents are not part of this model.
- OpeningEntry: rows other than balances, movements and the opening journal; opening figures are stored amounts, as the code's constants are.
