# Models and proofs of the shop's calendar, state machines, command protocols and redaction

This project models the parts of the shop whose correctness depends on more than one function, and
proves what they promise for every input, every object graph and every run.

- **Solar Hijri calendar** (`Truncation`, `Gregorian`, `Jalali`, `JalaliDates`). The truncating
  arithmetic, the break table and its scan, the two day-number conversions and the date conversion.
  The closed-form conversion is proved to be day-by-day counting with the calendar's own rules.
- **Numbers as text** (`Numerals`). Persian digits, thousands separators and Toman amounts, with a
  reader that recovers the exact Rial value.
- **Structured data in HTML** (`Json`, `JsonRoundTrip`, `JsonLd`). A JSON printer and parser, and the
  markup escaping between them.
- **Transition log** (`StateMachine`, `TransitionLog`, `LegalHistories`, `StatusSafety`,
  `InsertionOrder`). One recorded
  transition as a class over what a transaction sees, and concurrent transactions as a state machine
  over begin, insert, compare-and-set, fail, commit and abort.
- **Retries** (`SerializableRetry`, `RetriedTransitions`). The retry loop, and what a client that
  retries a recording leaves in the database among concurrent transactions.
- **Category ancestors** (`CategoryAncestors`). The upward walk on any data, cyclic or not.
- **Redaction** (`Redaction`, `RedactionSafety`, `RedactionContent`). The walk with its mutable `seen` set over a heap of
  shared and cyclic objects.
- **Commands with an unknown outcome** (`Commands`; `AccountEditor`, `EditorProtocol` and
  `EditorDrafts`; `CheckoutPage`, `CheckoutProtocol` and `CheckoutForm`; `PaymentPage` and `PaymentProtocol`; `RefreshAttempt`).
  Each page is a class with the page's state and references as fields. Each of its methods is proved
  to do what a step function on values says, and the protocol module proves what holds in every run
  of those steps with users, other sessions, the network and the server.

## What the code does that its documentation does not say

- `jalaliMonthLength` has the two lengths of month 12 the wrong way round: it gives 29 days when
  `leap` is 0, which is the mark of a leap year, and 30 otherwise. The calendar's own day numbers and
  `gregorianToJalali` disagree: 20 March 2013 is 30 Esfand 1391. The model keeps the code and proves
  that it is right exactly for the months other than the last (`JalaliDates.MonthLengthWhenRight`), and
  that in the last month it always gives the other one of 29 and 30 (`JalaliDates.LastMonthLengthSwapped`).
  All calendar theorems use the length that follows from the day numbers (`JalaliDates.Length`). The
  month-length expectations in `apps/web/src/lib/format.test.ts:112-117` record the inverted values.
  Of all days the conversion and the month length contradict each other exactly on 30 Esfand
  (`JalaliDates.DayWithinMonthLength`), and in every other year the month length admits a 30 Esfand
  that no day is (`JalaliDates.LastDayMadeUp`).
- The statement marked unreachable at the end of `withSerializableRetry` is reached exactly when the
  attempts are not a number, or are above one, not whole, and all those allowed fail retryably
  (`SerializableRetry.FinalThrowExactly`; 2.5 and `NaN` attempts in `SerializableRetry.FinalThrowReached`).
- When no random key can be made, the checkout and payment pages report an unknown outcome although
  nothing was sent (`CheckoutProtocol.KeylessClickOpensResult`, `PaymentProtocol.KeylessClickLocks`).
  `CheckoutProtocol.OpenResultExactly` and `PaymentProtocol.UncertainExactly` say exactly when. The
  payment page then stays locked; on the checkout page the next click that makes a key sends.
- When the account editor can make no key, it stays saving for ever: the key is made after the save is
  marked as in flight and outside the part that is guarded (`EditorProtocol.KeylessSaveSticks`,
  `EditorProtocol.StuckForEver`; `EditorProtocol.StuckExactly` says exactly when).

## The order of the history

The transition history is a chain in the order of commits. `apps/api/src/modules/orders/order-read.service.ts:275-303`
lists it by the time of insertion. The two orders agree if and only if no transaction commits an advance
that was overtaken, that is, taken with a row older than one already committed
(`InsertionOrder.InsertionOrderExactly`). A sufficient condition that does not look at rows is that a
transaction fails when it advances an aggregate that was changed after the transaction took its snapshot
(`InsertionOrder.IsolatedInsertionOrderIsHistory`). Serializable and Repeatable Read transactions of
PostgreSQL do that, and the callers of `recordTransition` open Serializable ones, such as
`apps/api/src/modules/orders/checkout.service.ts:479` and
`apps/api/src/modules/payments/payment-verification.service.ts:381`. `recordTransition` itself does not ask
for an isolation level: `InsertionOrder.InsertionOrderNeedNotChain` is a run that needs Read Committed,
and a writer that takes a payment from FAILED back to PENDING, which the map allows and no caller does.

## Model

Rows that begin with "Link:", at the end, are handlers whose contract ties the fields of a class to the
step function that the protocol theorems are about. They are the connection to the code's own form, not
results of their own.

| member | source | states |
|---|---|---|
| Gregorian.RoundTrip | apps/web/src/lib/format.ts:86-104 | Every valid date from 1 March -100100 on comes back from its day number. |
| Gregorian.Inverse | apps/web/src/lib/format.ts:86-104 | Every day number from that day on gives a valid date whose day number it is; there is no upper limit. |
| Gregorian.NextDayNumber | apps/web/src/lib/format.ts:86-94 | The next date by the leap-year and month-length rules has the next day number. |
| Gregorian.Succession | apps/web/src/lib/format.ts:96-104 | The next day number gives the next date by those rules. |
| Gregorian.NumberAscends | apps/web/src/lib/format.ts:86-94 | An earlier date has a smaller day number. |
| Jalali.JalCal | apps/web/src/lib/format.ts:59-84 | The scan of the break table with its accumulators finds the segment of a year and gives the leap count and March day that the recursive definition gives. |
| Jalali.GapShape | apps/web/src/lib/format.ts:54-57 | Every gap of the break table is 29 or 4 modulo 33 and long enough, which is what the two corrections rely on. |
| Jalali.LeapFlagInSegment | apps/web/src/lib/format.ts:81-83 | In a gap of either shape, the leap value is the number of years since the last leap year by an independent rule for cycles of 29, 33 and 37 years. |
| Jalali.LeapsAccumulate | apps/web/src/lib/format.ts:66-76 | The leap count behind the March day grows by one exactly after a leap year, inside segments and across every break. |
| Jalali.FarvardinClosedForm | apps/web/src/lib/format.ts:59-94 | 1 Farvardin of every year is 365 days a year plus the leap days before it. |
| Jalali.YearLength | apps/web/src/lib/format.ts:59-84 | From one 1 Farvardin to the next there are 366 days when the leap value is 0 and 365 otherwise; the value is between 0 and 4 and is 0 exactly in leap years of the cycle rule. |
| Jalali.LeapFlagFollows | apps/web/src/lib/format.ts:81-83 | The leap value is 1 exactly in the year after a leap year, across every break. |
| Jalali.NowruzInMarch | apps/web/src/lib/format.ts:78-79 | The year starts between 19 and 24 March, in all years -61 to 3178. |
| JalaliDates.YearIsItsMonths | apps/web/src/lib/format.ts:59-152 | The twelve month lengths add up to the distance between two 1 Farvardins. |
| JalaliDates.FromDayNumberIs | apps/web/src/lib/format.ts:107-128 | Every day of a Jalali year is converted by counting from its 1 Farvardin, in the branch for the second Gregorian year as well. |
| JalaliDates.CoveredDays | apps/web/src/lib/format.ts:54-94 | The covered years are exactly the day numbers from 1925675 up to but not including 3108695. |
| JalaliDates.ConversionIsValid | apps/web/src/lib/format.ts:107-128 | Every day number in range gives a valid date, and counting that date's days gives the day number back. |
| JalaliDates.RoundTrip | apps/web/src/lib/format.ts:107-128 | Every valid Jalali date comes back from the day number that counting gives it. |
| JalaliDates.Succession | apps/web/src/lib/format.ts:59-152 | The next day number gives exactly the next Jalali day, rolling over months and years. |
| JalaliDates.OrderPreserved | apps/web/src/lib/format.ts:107-128 | A later day number gives a later Jalali date. |
| JalaliDates.GregorianToJalaliIsMonotone | apps/web/src/lib/format.ts:138-143 | On all valid dates of years 561 to 3798 the conversion succeeds, gives a valid date of the same day number, and keeps the order, so it is injective. |
| JalaliDates.GregorianToJalaliAdvances | apps/web/src/lib/format.ts:138-143 | The next Gregorian date is converted to the next Jalali date. |
| JalaliDates.KnownDays | apps/web/src/lib/format.ts:138-143 | Two dates from outside the code: 1 Farvardin 1400 and 30 Esfand 1391. |
| JalaliDates.RefusedExactly | apps/web/src/lib/format.ts:138-148 | Which arguments the conversion and the month length refuse, and with which error. |
| JalaliDates.MonthLengthWhenRight | apps/web/src/lib/format.ts:146-152 | The month length is the calendar's own if and only if the month is not the last one. |
| JalaliDates.LastMonthLengthSwapped | apps/web/src/lib/format.ts:146-152 | In the last month it is always the other one of 29 and 30. |
| JalaliDates.DayWithinMonthLength | apps/web/src/lib/format.ts:107-152 | For every day in range, the converted day is within the month length if and only if it is not 30 Esfand. |
| JalaliDates.LastDayMadeUp | apps/web/src/lib/format.ts:107-152 | In every year that is not leap the month length admits a 30 Esfand, and no day in range converts to it. |
| JalaliDates.LastDayLeftOut | apps/web/src/lib/format.ts:138-152 | A date that the conversion gives and the month length excludes. |
| Numerals.LatinInvertsPersian | apps/web/src/lib/format.ts:155-163 | Back-conversion of digits restores a text if and only if the text had no Persian or Arabic digits. |
| Numerals.ConversionKeepsDigits | apps/web/src/lib/format.ts:155-163 | Both conversions keep the value of every digit of the three scripts at its place, leave no digit of the script they convert from, and change nothing else. |
| Numerals.UngroupInverts | apps/web/src/lib/format.ts:166-173 | Removing separators restores every text that had none, number or not. |
| Numerals.GroupedByThousands | apps/web/src/lib/format.ts:166-173 | Inserting separators from the left gives what splitting off the last three digits again and again gives. |
| Numerals.GroupsExactly | apps/web/src/lib/format.ts:166-173 | Digits, with or without a minus sign, are grouped every three from the right; any other text is unchanged. |
| Numerals.ReadInvertsFormat | apps/web/src/lib/format.ts:186-198 | A reader recovers the exact Rial value from the printed Toman amount of every digit text. |
| Numerals.FormatIsInjective | apps/web/src/lib/format.ts:186-198 | Two amounts print alike if and only if they are equal. |
| Numerals.TomanExactly | apps/web/src/lib/format.ts:186-198 | A printed amount is the grouped shortest digits of the whole Tomans in Persian digits, the tenth if there is one, and the unit. |
| Numerals.OtherAmounts | apps/web/src/lib/format.ts:186-189 | Text that is not a number, and numbers that are negative or not safe, only have their digits converted. |
| JsonRoundTrip.PrintRoundTrip | apps/web/src/lib/json-ld.ts:11-12 | Every JSON value, with surrogates and control characters in its strings, is read back from its printed text. |
| JsonLd.OnePass | apps/web/src/lib/json-ld.ts:11-16 | The three replacements in a row do the same as one pass: none touches what another inserted. |
| JsonLd.EscapesAre | apps/web/src/lib/json-ld.ts:13-15 | The three escapes, letter by letter. |
| JsonLd.EscapedIsClean | apps/web/src/lib/json-ld.ts:11-16 | The escaped text of any text has no `<`, `>` or `&`. |
| JsonLd.EscapePreservesMeaning | apps/web/src/lib/json-ld.ts:1-16 | Every text that is JSON, printed by anyone, parses to the same value after escaping. |
| JsonLd.SerializationIsSafeAndFaithful | apps/web/src/lib/json-ld.ts:1-16 | Serialized data parses to the data itself and has none of the three characters. |
| JsonLd.InvalidTextCanChange | apps/web/src/lib/json-ld.ts:11-16 | The hypothesis above is needed: a text that is not JSON and becomes JSON by escaping. The serializer itself only escapes what the printer made. |
| StateMachine.TransactionClient.RecordTransition | apps/api/src/common/state-machine.ts:113-159 | Row insert and conditional update do to the transaction's view what the specification says: an illegal transition leaves nothing, a stale one leaves the row and an error, otherwise row and status. |
| TransitionLog.RecordIsTwoSteps | apps/api/src/common/state-machine.ts:125-158 | That specification is the insert step and the advance step of the concurrent model when no other transaction holds the aggregate; an illegal transition leaves the view as it was, a stale one leaves only the row, and both are conflicts. |
| TransitionLog.StepKeepsInvariant | apps/api/src/common/state-machine.ts:108-159 | Every step of concurrent transactions keeps chained committed histories, chained open transactions and exclusive locks. |
| TransitionLog.HistoryIsChain | apps/api/src/common/state-machine.ts:108-159 | In every run with stale reads, failures and aborts, each aggregate's committed history is a chain of legal transitions that ends at its current status. |
| LegalHistories.EveryPathIsHistory | apps/api/src/common/state-machine.ts:113-159 | The converse: every path of legal transitions from the first status is the history of an aggregate after some run. |
| LegalHistories.OrderTransitionsExactly | apps/api/src/common/state-machine.ts:13-20 | Which transitions of an order are legal, by where they lead. |
| LegalHistories.PaymentTransitionsExactly | apps/api/src/common/state-machine.ts:22-29 | Which transitions of a payment are legal, by where they lead. |
| LegalHistories.FulfillmentTransitionsExactly | apps/api/src/common/state-machine.ts:31-39 | Which transitions of a fulfillment are legal, by where they lead. |
| LegalHistories.OrderStatusReached | apps/api/src/common/state-machine.ts:13-20 | Some run takes a draft to every order status, and the bound of three transitions is met. |
| LegalHistories.FulfillmentStatusReached | apps/api/src/common/state-machine.ts:31-39 | Some run takes a pending fulfillment to every status, and the bound of five transitions is met. |
| LegalHistories.PaymentStatusReached | apps/api/src/common/state-machine.ts:22-29 | Some run takes a pending payment to every status after any number of failures: histories are unbounded, and two rows after the paying one do occur. |
| StatusSafety.RankBoundsHistory | apps/api/src/common/state-machine.ts:49-56 | In a machine whose transitions lower a rank, a history is no longer than the rank used up. |
| StatusSafety.UnpaidHistory | apps/api/src/common/state-machine.ts:22-29 | A history from an unpaid status enters PAID at most once, from PENDING, with at most two rows after it, and ends settled only if it was paid. |
| StatusSafety.PaymentSafety | apps/api/src/common/state-machine.ts:22-29 | The same for every payment created pending, in every concurrent run, although its history may be unbounded. |
| StatusSafety.RefundAfterPaid | apps/api/src/common/state-machine.ts:22-29 | Every refund in a history comes after the row that paid. |
| StatusSafety.OrderHistoryBounded | apps/api/src/common/state-machine.ts:13-20 | In every run an order has at most three transitions, fewer the later its status. |
| StatusSafety.NotCancelledAfterShipped | apps/api/src/common/state-machine.ts:31-39 | No history from SHIPPED or later enters CANCELLED. |
| StatusSafety.FulfillmentSafety | apps/api/src/common/state-machine.ts:31-39 | In every run a fulfillment has at most five transitions and is never cancelled after it was shipped. |
| InsertionOrder.InsertionOrderExactly | apps/api/src/common/state-machine.ts:127-146 | In every concurrent run, the committed rows of an aggregate are in the order of insertion if and only if no transaction commits an advance that was overtaken by a younger committed row. |
| InsertionOrder.IsolatedInsertionOrderIsHistory | apps/api/src/modules/orders/order-read.service.ts:275-303 | If a transaction fails whenever it advances an aggregate changed after it began, every listing by insertion is the chain of legal transitions from the first status to the current one. |
| InsertionOrder.InsertionOrderNeedNotChain | apps/api/src/common/state-machine.ts:127-146 | Without that, a run of three writers whose rows chain in commit order but in insertion order lead nowhere; it commits an overtaken advance and is not a run of isolated transactions. |
| SerializableRetry.WithSerializableRetry | apps/api/src/common/serializable-retry.ts:20-64 | The loop returns the first final outcome, rethrows an error that is not retryable at once, reports a conflict after the last attempt, waits longer each time, exactly when asked to, and tells when its last statement was reached; attempts may be no number. |
| SerializableRetry.FinalThrowExactly | apps/api/src/common/serializable-retry.ts:40-63 | The statement after the loop is reached if and only if the attempts are not a number, or above one, not whole, and all those allowed fail retryably. |
| SerializableRetry.FinalThrowReached | apps/api/src/common/serializable-retry.ts:40-63 | Inputs that reach it: 2.5 attempts that all conflict, after two calls, and attempts that are not a number, before any call. |
| SerializableRetry.AbortsStayInside | apps/api/src/common/serializable-retry.ts:4-18 | With the default attempts there are one to three calls and the last statement is not reached; a caller that counts database aborts as contention never gets to see one. |
| SerializableRetry.AnotherAttemptExactly | apps/api/src/common/serializable-retry.ts:7-18 | There is another attempt if and only if one more is allowed and all so far failed with P2034 or P2002 or, for callers that count aborts, P2010 with 40001 or 40P01. |
| SerializableRetry.DeliveredExactly | apps/api/src/common/serializable-retry.ts:42-63 | What is delivered: the last outcome, a conflict with the message of the caller, or the error of the last statement. |
| RetriedTransitions.RowsAreReturns | apps/api/src/common/state-machine.ts:113-159 | In every concurrent run, the rows of the database that a client committed are those its attempts returned, in order. |
| RetriedTransitions.RetryCommitsAtMostOnce | apps/api/src/common/serializable-retry.ts:20-64 | In every concurrent run, a client that retries a recording leaves in the database exactly the row it returns when it returns, and no row when it throws. |
| RetriedTransitions.AttemptIsAtomic | apps/api/src/common/state-machine.ts:113-159 | In every concurrent run, the commit of an attempt adds its one legal row, from the status the aggregate has at that moment, and moves exactly that aggregate. |
| CategoryAncestors.Ancestors | apps/web/src/server/category-ancestors.ts:4-17 | The loop ends on all data, after at most one step more than it finds ancestors, with at most one ancestor per other distinct id, and gives the longest chain of parents in the list, root first. |
| CategoryAncestors.ByIdIsInForce | apps/web/src/server/category-ancestors.ts:5 | The map has an id if and only if a category of the list has it, and holds the last one with it. |
| CategoryAncestors.LinksAreChain | apps/web/src/server/category-ancestors.ts:8-15 | Chains in the map are exactly the chains of parents in the list without repetition. |
| CategoryAncestors.LongestIsChain | apps/web/src/server/category-ancestors.ts:8-15 | The specification is a chain in which each category is the parent of the one before. |
| CategoryAncestors.LongestExtendsAll | apps/web/src/server/category-ancestors.ts:8-15 | Every parent chain without repetition is a beginning of it. |
| CategoryAncestors.NoRepetition | apps/web/src/server/category-ancestors.ts:7-10 | No id occurs twice in a chain, and the current category does not occur. |
| CategoryAncestors.AncestorsAreLongest | apps/web/src/server/category-ancestors.ts:3-17 | What the result means for the list: linked by the parents of the categories in force, without repetition and the current category, and no other such chain goes beyond it. |
| Redaction.Walker.ReadOwnEntries | apps/api/src/common/redaction.ts:49-63 | The loop gives the first 64 entries in order, each value as it is and accessors as the redaction mark without running them, and a marker when there are more. |
| Redaction.Walker.WalkNode | apps/api/src/common/redaction.ts:65-117 | The walk with its mutable set ends on every graph, gives the copy that the path-based specification gives, and leaves the set as it was. |
| Redaction.Walker.MapItems | apps/api/src/common/redaction.ts:89-98 | The items of an array are copied in order with the set unchanged between them. |
| Redaction.Walker.FillFields | apps/api/src/common/redaction.ts:103-114 | The fields of an object are copied one by one, hidden keys without looking at their values. |
| RedactionSafety.RedactIndependentOfHidden | apps/api/src/common/redaction.ts:104-126 | Two object graphs that agree on everything visible give the same copy, whatever they share, whatever cycles they have and whatever is hidden. |
| RedactionSafety.RedactBounded | apps/api/src/common/redaction.ts:11-14 | Every copy is bounded in depth and, on each level, in width. |
| RedactionSafety.StepCopied | apps/api/src/common/redaction.ts:79-115 | One visible step into a value is one step into its copy. |
| RedactionSafety.PathCopied | apps/api/src/common/redaction.ts:65-117 | Along any visible path without repeated containers the copy is walked in step with the value. |
| RedactionSafety.CircularExactly | apps/api/src/common/redaction.ts:89-126 | Within the depth limit a copy is marked circular if and only if its container is already on its own path; shared containers are not marked. |
| RedactionContent.RedactIsScrubbed | apps/api/src/common/redaction.ts:23-47 | Every text anywhere in a copy of any graph, error names and messages included, has whatever property all results of scrubbing have; only digits of big integers and dates are copied as they are. |
| RedactionContent.LeafCopied | apps/api/src/common/redaction.ts:67-87 | At the end of every visible path within the limit stands the copy of what is there: scrubbed text, the plain value, or the mark; errors with scrubbed name and message. |
| RedactionContent.ArrayCopied | apps/api/src/common/redaction.ts:89-98 | The copy of an array has its first 64 items and a mark exactly when there are more. |
| RedactionContent.ObjectCopied | apps/api/src/common/redaction.ts:100-115 | The copy of an object has exactly its first 64 keys and a mark exactly when there are more; fields under keys that hide are the redaction mark, those under URL keys the scrubbed URL or the mark. |
| RedactionContent.DepthLimitExactly | apps/api/src/common/redaction.ts:66 | The mark of the depth limit stands nine steps deep and nowhere before. |
| RedactionContent.RedactIsTotal | apps/api/src/common/redaction.ts:119-126 | A walk throws only over an error whose name is not a string, and gives the redaction mark then; undefined as a whole is copied as null. |
| EditorProtocol.StepKeepsInvariant | apps/web/src/services/use-customer-account-editor.ts:36-102 | Every step of editor, network, server and other sessions keeps the protocol's invariant. |
| EditorProtocol.PendingAttemptIsShown | apps/web/src/services/use-customer-account-editor.ts:60-102 | In every run one key is one request, an uncertain save, or a running one when every save could make its key, is for the draft and account shown, and loading and saving never overlap. |
| EditorProtocol.StuckExactly | apps/web/src/services/use-customer-account-editor.ts:76-83 | In every run a save is in flight without a request if and only if some save that needed a key could not make it. |
| EditorProtocol.StuckForEver | apps/web/src/services/use-customer-account-editor.ts:60-83 | Then nothing is sent, loaded or edited any more in any continuation. |
| EditorProtocol.KeylessSaveSticks | apps/web/src/services/use-customer-account-editor.ts:76-83 | A run with one load and one such save, with nothing sent. |
| EditorProtocol.SuccessMeansCommittedOnce | apps/web/src/services/use-customer-account-editor.ts:25-102 | In every run a reported success means that the draft shown was committed exactly once, on exactly the account it was based on. |
| EditorProtocol.KeysCommitOnce | apps/web/src/services/use-customer-account-editor.ts:82-84 | In every run no key is committed twice, and each commit follows the version it names. |
| EditorProtocol.ConflictRetires | apps/web/src/services/use-customer-account-editor.ts:91-97 | In every run a version conflict retires the pending attempt. |
| EditorProtocol.StaleAttemptNeverResent | apps/web/src/services/use-customer-account-editor.ts:44-52 | A retired attempt is never sent again in any continuation. |
| EditorProtocol.ConflictStopsSending | apps/web/src/services/use-customer-account-editor.ts:76-77 | While a conflict stands nothing is sent; only an answered load ends it. |
| EditorDrafts.RefreshDecidesDraft | apps/web/src/services/use-customer-account-editor.ts:41-74 | A refresh that keeps the changes leaves the draft as it is up to and including the answer of its load, whatever happens in between; one that gives them up shows the account answered. |
| EditorDrafts.FirstLoadShowsAccount | apps/web/src/services/use-customer-account-editor.ts:41-52 | The first load shows the account it is answered with. |
| EditorDrafts.DraftSurvivesConflict | apps/web/src/services/use-customer-account-editor.ts:11-14 | A refused draft survives a conflict, the refresh and the reload, and the next save sends it for the version loaded, under a new key. |
| EditorDrafts.RefusalsChangeNothing | apps/web/src/services/use-customer-account-editor.ts:60-74 | Refused refreshes, early changes and loads that no longer count change nothing. |
| EditorDrafts.ChangesAreShown | apps/web/src/services/use-customer-account-editor.ts:60-65 | A change that is not refused is shown and ends what was pending. |
| EditorDrafts.SaveSendsExactly | apps/web/src/services/use-customer-account-editor.ts:76-84 | When a save sends something, in terms of what is shown and runs. |
| EditorDrafts.NextSaveAfterFailure | apps/web/src/services/use-customer-account-editor.ts:9-23 | After a failure, by its code and status, the next save sends nothing, the same request again, or the draft under a key never sent before. |
| EditorDrafts.SavedMeansCommitted | apps/web/src/services/use-customer-account-editor.ts:84-90 | In every run the success message stands only while the account and draft shown are exactly those of a commit of this editor. |
| EditorDrafts.FailureMessageFollows | apps/web/src/services/use-customer-account-editor.ts:76-101 | When the failure message comes and goes. |
| CheckoutPage.Validate | apps/web/src/views/CheckoutPage.tsx:554-571 | The errors filled in one by one are exactly the wrong fields, and none exactly when no field is wrong. |
| CheckoutProtocol.StepKeepsInvariant | apps/web/src/views/CheckoutPage.tsx:165-255 | Every step of page, network and server keeps the protocol's invariant. |
| CheckoutProtocol.OneKeyOneOrder | apps/web/src/views/CheckoutPage.tsx:165-255 | In every run one key means one address and one quote, and the quote is one the server gave for exactly that address, from a form without errors. |
| CheckoutProtocol.CompleteAddress | apps/web/src/views/CheckoutPage.tsx:173-183 | What such an address has: a province code and texts of the required lengths. |
| CheckoutProtocol.SuccessMeansShownOrder | apps/web/src/views/CheckoutPage.tsx:230-240 | In every run the order the page is told about is for the address and quote it shows, and is the only one of that key. |
| CheckoutProtocol.AmbiguousFailureLeavesPending | apps/web/src/views/CheckoutPage.tsx:241-255 | In every run an ambiguous failure leaves exactly the order just sent pending, and it can be placed again at once without a new key. |
| CheckoutProtocol.UnknownResultIsReplayed | apps/web/src/views/CheckoutPage.tsx:203-255 | Until the result is known, every request of any continuation is that same request under the same key. |
| CheckoutProtocol.OpenResultExactly | apps/web/src/views/CheckoutPage.tsx:224-255 | In every run an open result with a key is that of the order shown, which was sent last; an open result without a key is there if and only if the last click that could place an order could not make its key. |
| CheckoutProtocol.KeylessClickOpensResult | apps/web/src/views/CheckoutPage.tsx:224-255 | A run that ends with an open result and nothing sent. |
| CheckoutProtocol.RefusalRetiresKey | apps/web/src/views/CheckoutPage.tsx:243-250 | In every run a definite refusal retires the key and takes the preview away. |
| CheckoutProtocol.RetiredKeyNeverSent | apps/web/src/views/CheckoutPage.tsx:231 | A key the page has given up is never sent again in any continuation. |
| CheckoutProtocol.NothingSentWithoutPreview | apps/web/src/views/CheckoutPage.tsx:224-225 | After a refusal nothing is sent until another preview arrives. |
| CheckoutForm.AddressFollowsField | apps/web/src/views/CheckoutPage.tsx:165-183 | Changing one field of the form changes exactly that field of the address sent, with its own normalization. |
| CheckoutForm.AddressFollowsSaved | apps/web/src/views/CheckoutPage.tsx:185-197 | A saved address fills every field of the form from where it belongs. |
| CheckoutForm.TypedAddress | apps/web/src/views/CheckoutPage.tsx:165-171 | Every form can be typed, and has no preview and no key then. |
| CheckoutForm.PreviewAskedExactly | apps/web/src/views/CheckoutPage.tsx:203-211 | When a preview is asked for, field by field, and with which address. |
| CheckoutForm.QuoteFollowsChoice | apps/web/src/views/CheckoutPage.tsx:86-90 | The quote in force is the first of a new preview and then the one last chosen. |
| CheckoutForm.OrderSentExactly | apps/web/src/views/CheckoutPage.tsx:224-236 | When an order is sent, and which. |
| CheckoutForm.NextOrderAfterFailure | apps/web/src/views/CheckoutPage.tsx:241-255 | After a failure, by its code and status, the next click sends the same request again, or nothing is sent and the form is kept for another preview. |
| CheckoutForm.MessagesFollow | apps/web/src/views/CheckoutPage.tsx:165-245 | Which fields are marked wrong and when the error message comes and goes. |
| CheckoutForm.LatePreviewIgnored | apps/web/src/views/CheckoutPage.tsx:211-219 | A preview that arrives after the page was left is not shown. |
| CheckoutForm.HandlersGuard | apps/web/src/views/CheckoutPage.tsx:203-225 | The handlers refuse on their own what the disabled controls prevent. |
| PaymentProtocol.StepKeepsInvariant | apps/web/src/views/PaymentPage.tsx:102-158 | Every step of the page, its order and its clock keeps the protocol's invariant. |
| PaymentProtocol.KeyChangesExactlyOnDefiniteFailure | apps/web/src/views/PaymentPage.tsx:126-157 | In every run two payments carry one key if and only if none between them failed in one of the three definite ways. |
| PaymentProtocol.UnknownOutcomeIsLast | apps/web/src/views/PaymentPage.tsx:102-158 | In every run of one page, from its display until it is left, a payment with an unknown outcome is the last one sent. A page that is loaded anew does not remember it. |
| PaymentProtocol.UncertainExactly | apps/web/src/views/PaymentPage.tsx:102-158 | In every run the page is uncertain if and only if a payment ended late, mismatched or unconfirmed, or a click that could start one in time had no key and could not make one. |
| PaymentProtocol.KeylessClickLocks | apps/web/src/views/PaymentPage.tsx:124-157 | One such click leaves the page uncertain with nothing sent in every continuation. |
| PaymentProtocol.UncertaintyIsFinal | apps/web/src/views/PaymentPage.tsx:102-110 | Once uncertain, the page sends nothing more in any continuation and stays uncertain. |
| PaymentProtocol.OpenFailureLocks | apps/web/src/views/PaymentPage.tsx:144-157 | After no answer or PAYMENT_RESULT_UNCONFIRMED, TIMEOUT, NETWORK_ERROR or PARSE_ERROR, no continuation sends anything, and the key of that payment is kept. |
| PaymentProtocol.NextKeyAfterFailure | apps/web/src/views/PaymentPage.tsx:126-157 | After UPSTREAM_UNAVAILABLE, UNPROCESSABLE or PAYMENT_PROVIDER_DISABLED the next payment has a key never sent before, after any other answer of the server the same key. |
| PaymentProtocol.OtherFailureUnlocks | apps/web/src/views/PaymentPage.tsx:144-157 | A failure that does not leave the payment open leaves a certain page certain. |
| PaymentProtocol.ClickSendsExactly | apps/web/src/views/PaymentPage.tsx:102-129 | When a click sends a payment, and for which order and time. |
| PaymentProtocol.ReplyDecides | apps/web/src/views/PaymentPage.tsx:130-143 | A reply leads to the gateway if and only if the page is shown, the deadline has not come, and provider, status, currency, amount and address are right; any other reply to a shown page makes it uncertain. |
| PaymentProtocol.MessagesFollow | apps/web/src/views/PaymentPage.tsx:83-157 | When the page shows that it is busy, a payment error, and that the deadline has come. |
| PaymentProtocol.PaymentsStartInTime | apps/web/src/views/PaymentPage.tsx:83-143 | In every run payments start strictly before a readable deadline on payable orders, and users go to the gateway only in time and for exactly the amount shown. |
| PaymentProtocol.ReturnPageNeverPays | apps/web/src/views/PaymentPage.tsx:102-110 | The page shown on return from the gateway never starts a payment. |
| RefreshAttempt.StepKeepsInvariant | packages/contracts/src/refresh-attempt.ts:20-65 | Every storage access of every tab keeps what is stored and read genuine. |
| RefreshAttempt.SendsStayInWindow | packages/contracts/src/refresh-attempt.ts:37-49 | However tabs interleave, every request is sent less than 12 seconds after its id was made; the window never slides. |
| RefreshAttempt.RunWithoutStorage | packages/contracts/src/refresh-attempt.ts:20-49 | A run without storage changes nothing that is stored and sends under a new id. |
| RefreshAttempt.SerialRunSends | packages/contracts/src/refresh-attempt.ts:38-65 | Runs that nothing interleaves with send, as steps of the browser model, exactly the attempts of the next row, in order. |
| RefreshAttempt.SerialReuseExactly | packages/contracts/src/refresh-attempt.ts:51-65 | With serial runs, working storage and a clock that does not go back, consecutive requests share an id if and only if the first ended unknown and the second is inside the window. |
| AccountEditor.AccountEditor.Change | apps/web/src/services/use-customer-account-editor.ts:60-65 | Link: A change is ignored while saving, loading or uncertain; otherwise it drops the pending attempt. |
| AccountEditor.AccountEditor.Refresh | apps/web/src/services/use-customer-account-editor.ts:67-74 | Link: A refresh waits for saving, asks before discarding a draft, and makes older loads count no more. |
| AccountEditor.AccountEditor.LoadSucceeded | apps/web/src/services/use-customer-account-editor.ts:41-52 | Link: Only the latest load of a shown editor counts; it ends the attempt, the conflict and the uncertainty. |
| AccountEditor.AccountEditor.LoadFailed | apps/web/src/services/use-customer-account-editor.ts:53-56 | Link: A failed load changes neither the draft nor the attempt. |
| AccountEditor.AccountEditor.Save | apps/web/src/services/use-customer-account-editor.ts:76-84 | Link: What is sent is the pending attempt if there is one, else the account and draft shown under a new key; without a key nothing is sent and the save stays in flight. |
| AccountEditor.AccountEditor.SaveSucceeded | apps/web/src/services/use-customer-account-editor.ts:84-90 | Link: Success ends the attempt and shows the account answered. |
| AccountEditor.AccountEditor.SaveFailed | apps/web/src/services/use-customer-account-editor.ts:91-101 | Link: Conflicts, definite rejections and unknown results are told apart by code and status (9-23); only a definite rejection drops the attempt. |
| CheckoutPage.CheckoutContents.SetField | apps/web/src/views/CheckoutPage.tsx:165-171 | Link: Changing one field leaves the others and drops preview, quote and key. |
| CheckoutPage.CheckoutContents.SelectSavedAddress | apps/web/src/views/CheckoutPage.tsx:185-201 | Link: Choosing a saved address fills the form from the first one with that id and drops preview, quote and key; an unknown id changes nothing. |
| CheckoutPage.CheckoutContents.HandlePreview | apps/web/src/views/CheckoutPage.tsx:203-211 | Link: A preview is asked for exactly when nothing is under way, no result is open and the form has no errors, with the address of the form. |
| CheckoutPage.CheckoutContents.PreviewArrived | apps/web/src/views/CheckoutPage.tsx:211-219 | Link: A preview selects its first quote and drops the key, unless the page was left. |
| CheckoutPage.CheckoutContents.ChooseQuote | apps/web/src/views/CheckoutPage.tsx:453-456 | Link: Another quote drops the key. |
| CheckoutPage.CheckoutContents.HandleCreate | apps/web/src/views/CheckoutPage.tsx:224-236 | Link: What is sent is the address of the form and the quote in force, under the key held or a new one. |
| CheckoutPage.CheckoutContents.CreateFailed | apps/web/src/views/CheckoutPage.tsx:241-255 | Link: An ambiguous failure keeps key and preview and marks the result open; a definite one drops both. |
| PaymentPage.PaymentContents.HandlePayment | apps/web/src/views/PaymentPage.tsx:102-129 | Link: A click sends a request exactly when the order is payable, nothing is under way or uncertain, the deadline is readable and ahead, and there is a key. |
| PaymentPage.PaymentContents.PaymentReplied | apps/web/src/views/PaymentPage.tsx:130-143 | Link: A reply leads to the gateway only in time and with a matching payment; late or mismatched replies leave the page uncertain. |
| PaymentPage.PaymentContents.PaymentFailed | apps/web/src/views/PaymentPage.tsx:144-157 | Link: Which failures leave the page uncertain and which drop the key. |
| RefreshAttempt.RefreshAttemptStore.Read | packages/contracts/src/refresh-attempt.ts:20-27 | Link: Reading gives the stored attempt, and nothing for damaged or unavailable storage. |
| RefreshAttempt.RefreshAttemptStore.Clear | packages/contracts/src/refresh-attempt.ts:29-35 | Link: Clearing empties the entry when storage is available. |
| RefreshAttempt.RefreshAttemptStore.Current | packages/contracts/src/refresh-attempt.ts:38-49 | Link: The attempt used is the stored one while it is young enough and not from the future; else a new one, stored if possible. |
| RefreshAttempt.RefreshAttemptStore.Run | packages/contracts/src/refresh-attempt.ts:56-65 | Link: A run without interference uses the current attempt and ends it unless the outcome is unknown. |

## Left out

Calendar and text

- Numbers are unbounded integers; the code's are exact only up to 2^53.
- Jalali years outside -61 to 3177: the table ends there and the code has no check.
- Text output around the calendar (`formatJalaliFull`, `formatTimestamp` and the like): `Intl`, `Date` and time zones.
- `formatPersianNumber` and `formatRial` are compositions; the negative and non-integer numeric arguments of `formatToman` are modelled as the branch that only changes digits.
- JSON: values without numbers outside the grammar, `undefined`, functions, `toJSON` or cycles; members keep their order, also when keys repeat.

Transitions, retries and categories

- Actor, request and reason of a row, and the response object, which are passed through.
- Isolation beyond what the code relies on: a row lock from the conditional update to the end of the transaction, visibility on commit, and failure of any transaction at any time. Database constraints are such failures.
- SerializableRetry.WithSerializableRetry: infinitely many attempts and a waiting time that is not a number are not modelled.
- RetriedTransitions.RetryCommitsAtMostOnce: a commit whose acknowledgement is lost is neither a return nor a throw; each attempt is one recording in one transaction of its own.
- InsertionOrder.IsolatedInsertionOrderIsHistory: rows have distinct insertion stamps that follow the order of insertion; equal or disordered `createdAt` times of one aggregate are not modelled, and a transaction's snapshot is taken where it begins.

Redaction

- The patterns for keys and values, the length limit on strings and URL parsing: predicates and functions that the proofs leave open.
- Keys named `__proto__`, proxies, and errors whose cause throws when read; the order of properties in a copy.
- RedactionContent.RedactIsScrubbed: speaks of the texts that are values; the keys of a copy are those of the object and are not scrubbed, and numbers are copied as they are.
- RedactionSafety.CircularExactly: speaks of paths within the depth limit; deeper values are cut there.

Commands

- Rendering, focus and messages. Changes of state are visible at once and handlers see the current state.
- The servers. EditorProtocol and CheckoutProtocol assume one commit per key, replay of the stored answer and, for the editor, a version check; new keys have never been used. The payment and refresh proofs assume nothing of the server.
- The account's initialisation when it does not exist yet, and reloading the cart as such: only its end is a step.
- PaymentProtocol.UnknownOutcomeIsLast: a reload or another tab shows a new page with its own key; what the server then makes of two keys for one order is not modelled.
- PaymentPage: the order loaded may be any order at any time, so that loads that no longer count need no model; a browser that refuses to leave the page is not modelled.
- CheckoutPage: trimming, phone and postal-code rules and province codes are parameters; the provinces offered are those that have a code; the expiry shown with a quote is not used by the handlers.
- CheckoutProtocol.RefusalRetiresKey: speaks of the page. A request that is still under way when another one under its key is refused may yet be received, and the server may then place that order.
- RefreshAttempt.SendsStayInWindow: times are clock readings at the start of a run; how long the request takes to leave is not modelled. Another program that writes a well-formed attempt into storage is not modelled, nor a browser without random ids.
- The editing dialogs of the administration pages, whose keys follow other rules, and the environment, policy, masking, money and discount helpers, which would only add short formulas.
