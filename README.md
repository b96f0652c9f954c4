# Loan bot amortization engine in Dafny

This project models the calculation core of `telegram_loan_bot.py`, a Telegram
bot that computes an annuity loan and sends the borrower a payment schedule as
CSV and as a PDF contract. It models:

- `annuity_payment`, the fixed monthly payment;
- `build_schedule`, the month-by-month amortization loop and its summary;
- the text clean-up done by `parse_amount` / `parse_rate` and the `strip` done by
  `parse_term` and `name_received`;
- the list of rows that `schedule_csv_bytes` writes, before CSV encoding;
- the data list of the amortization table in `make_contract_pdf_bytes`;
- the five-question `/calc` conversation (amount, term, rate, manual payment,
  name) as a pure transition function.

All money is held as whole **cents** (`int`). Rates are exact rationals (`real`).
Python's `round(x, 2)` is `Money.Round2`: it rounds `100 x` to the nearest
integer, and exact ties go to the even neighbour. Because every balance,
interest and payment is whole cents, each rounding in `build_schedule` is exact
except the interest, `Round2(balance * r)`. The schedule properties therefore
hold exactly and for **any** fixed payment, not only the annuity one.

Files:

| file | module | models |
|---|---|---|
| `wrappers.dfy` | `Wrappers` | `Option` and `Result` |
| `money.dfy` | `Money` | cents, `round(x, 2)`, `max` |
| `annuity.dfy` | `Annuity` | `annuity_payment` and the closed form of the annuity |
| `schedule.dfy` | `Amortization` | `build_schedule`, the reference schedule and its specification |
| `annuity_schedule.dfy` | `AnnuitySchedule` | the schedule laid out with the annuity payment |
| `text_input.dfy` | `TextInput` | the space/comma clean-up and Python's `str.strip` |
| `export.dfy` | `Export` | the row list of `schedule_csv_bytes` and how to read it back |
| `contract.dfy` | `Contract` | the amortization table of the PDF and its `:.2f` amounts |
| `conversation.dfy` | `Conversation` | the handler state machine |

`Amortization.BuildSchedule` is a method with the source's loop. It keeps the
running balance and both running totals. Its loop invariant ties the rows built
so far to the recursive reference `Amortization.Schedule`. Separately,
`Amortization.Amortizes` states, row by row, what a correct table is. The
lemmas prove three things about it: the reference meets it, it has exactly one
solution, and the properties the bot relies on follow from it.

In the conversation, `/calc` is the entry point and nothing more. It starts a
conversation only when none is running, that is, after one has finished or been
cancelled. It keeps the answers already stored, because `calc_start` does not
clear `user_data`. While a conversation runs, `/calc` and every other command
except `/cancel` are ignored: the state handlers accept only text that is not a
command. `/cancel` ends the conversation.

With a rate that is not negative and a payment that covers one month's interest
on the principal, which the annuity payment always does, the remaining balance
shown never goes up from one row to the next. The raw balance is a different
matter. At 0 %, 498.61 over 360 months gives a payment of 1.39, and after month
359 the raw balance is -0.40. The table shows 0.00 there, and the last row
repays -0.40.

## Model

| member | source | states |
|---|---|---|
| Annuity.AnnuityPayment | telegram_loan_bot.py:57-64 | fails with `InvalidTerm` exactly when `months <= 0`; succeeds exactly when the formula can be evaluated; at a zero rate it is `Round2(principal / months)`; otherwise it is within half a cent of the exact annuity `p r / (1 - (1 + r)^-n)` |
| Annuity.NonNegativeRateComputable | telegram_loan_bot.py:57-64 | in exact rational arithmetic, with at least one month and a rate that is not negative, the payment is always computed (no division by zero); the bot's floats raise at line 63 whenever `1 + r` rounds to 1 |
| Annuity.MonthlyRate | telegram_loan_bot.py:58 | the monthly rate (also line 67) is the annual percentage divided by 1200, and it is not negative exactly when the annual rate is not negative |
| Annuity.AnnuityCoversInterest | telegram_loan_bot.py:57-64 | for a principal and a rate that are not negative, the payment is at least the first month's rounded interest `Round2(principal r)` |
| Annuity.ExactPaymentCoversInterest | telegram_loan_bot.py:61-63 | before rounding, the annuity payment is at least `p r`: at 0 % it is `p / n` and otherwise `p r / (1 - (1 + r)^-n)` with a denominator at most 1 |
| Annuity.AnnuityAmortizes | telegram_loan_bot.py:61-63 | paying the unrounded annuity payment every month leaves an exact balance of zero after `months` months, at a zero rate as well as a nonzero one |
| Annuity.ExactBalanceClosedForm | telegram_loan_bot.py:63 | after `k` exact months the balance satisfies `B_k r = p r (1 + r)^k - pmt ((1 + r)^k - 1)` |
| Annuity.ExactBalanceZeroRate | telegram_loan_bot.py:62 | at a zero rate the balance falls by the payment each month: `B_k = p - k pmt` |
| Annuity.PowAboveOne | telegram_loan_bot.py:63 | `(1 + r)^n > 1` for a positive rate, so the formula's denominator is not zero |
| Annuity.ZeroRateScenario | telegram_loan_bot.py:61-62 | 12000.00 over 12 months at 0 % gives a payment of 1000.00 |
| Annuity.TwelvePercentScenario | telegram_loan_bot.py:63-64 | 100000.00 over 12 months at 12 % a year gives a payment of 8884.88 |
| Money.Round2 | telegram_loan_bot.py:76-83 | rounding to cents; its meaning is stated by `Money.Round2Nearest`, `Money.Round2Units` and `Money.Round2Monotone` |
| Money.Round2Nearest | telegram_loan_bot.py:62 | `Round2(x)` is within half a cent of `100 x`, and a tie goes to the even cent |
| Money.Round2Units | telegram_loan_bot.py:79 | rounding a whole-cent amount to two decimals changes nothing |
| Money.Round2Sum | telegram_loan_bot.py:77 | sums and differences of whole-cent amounts round exactly |
| Money.Round2Monotone | telegram_loan_bot.py:76 | rounding keeps order: a larger amount never rounds to fewer cents |
| Money.Max | telegram_loan_bot.py:94 | the result is the larger of the two arguments |
| Amortization.BuildSchedule | telegram_loan_bot.py:66-106 | propagates the payment error; on success the rows are exactly the reference schedule and meet `Amortizes`; the summary holds the principal, the rate, the term and the fixed payment; the total interest is the sum of the interest column; the total paid is that total plus the principal, which is also the sum of the payment column |
| Amortization.ScheduleAmortizes | telegram_loan_bot.py:70-96 | for every fixed payment the reference schedule has one row per month numbered 1..months; every row charges `Round2(balance * r)` on the balance before it; every row but the last pays the fixed payment, and its principal part is that payment less the interest; the last row's principal part is the whole balance before it, and its payment is that plus the interest; every row shows the balance after it, floored at zero |
| Amortization.RowsFromAt | telegram_loan_bot.py:75-96 | row `i` of the schedule from month `m` is month `m + i`, described by the balance before it |
| Amortization.MonthArithmetic | telegram_loan_bot.py:76-83 | on whole cents the roundings of the principal part, the last payment and the new balance are exact |
| Amortization.AmortizesUnique | telegram_loan_bot.py:70-96 | at most one table meets the specification, so the specification pins down the output completely |
| Amortization.PrincipalPartsTelescope | telegram_loan_bot.py:70-86 | the principal parts add up to the principal; the balance after the last row is exactly zero and the last row shows zero |
| Amortization.PaymentsAddUp | telegram_loan_bot.py:77-86 | in every row the payment is the interest plus the principal part exactly; the payments add up to the total interest plus the principal |
| Amortization.TotalConcat | telegram_loan_bot.py:85-86 | a column total over two runs of rows is the sum of their totals |
| Amortization.RemainingNeverNegative | telegram_loan_bot.py:94 | no row reports a negative remaining balance |
| Amortization.InterestMonotone | telegram_loan_bot.py:76 | at a rate that is not negative, a smaller balance is never charged more interest |
| Amortization.BalanceBounded | telegram_loan_bot.py:70-83 | when the payment covers the interest on the principal, the balance before any month is at most the principal |
| Amortization.RemainingStep | telegram_loan_bot.py:76-94 | under the same conditions, row `i + 1` shows a remaining balance no larger than row `i` |
| Amortization.RemainingNonIncreasing | telegram_loan_bot.py:83-94 | under the same conditions, the remaining balance shown never goes up anywhere in the table |
| Amortization.ScheduleRemainingNonIncreasing | telegram_loan_bot.py:70-96 | for a term of at least one month, a rate that is not negative and a payment that covers the interest on the principal, the reference schedule shows a remaining balance that never goes up |
| AnnuitySchedule.FirstInterestCovered | telegram_loan_bot.py:66-76 | the payment computed for a principal and a rate that are not negative covers the first month's interest `Interest(principal, r)`, and the term is at least one month |
| AnnuitySchedule.AnnuityRemainingNonIncreasing | telegram_loan_bot.py:66-96 | for every principal and rate that are not negative, the schedule built with the annuity payment shows a remaining balance that never goes up |
| Amortization.ZeroRateRows | telegram_loan_bot.py:76-77 | at a zero rate every row's interest is zero and every row but the last repays exactly the fixed payment |
| Amortization.LoopRow | telegram_loan_bot.py:76-94 | the values the loop computes for one month form the reference row, and the new balance is the old one less the principal part |
| Amortization.MonthStep | telegram_loan_bot.py:85-96 | appending a month's row keeps the rows built so far a prefix of the reference schedule and keeps both running totals in step |
| TextInput.Normalize | telegram_loan_bot.py:45-51 | the text `parse_amount` and `parse_rate` hand to `float`; its meaning is stated by `TextInput.NormalizeSingle`, `TextInput.NormalizeConcat` and `TextInput.NormalizeClean` |
| TextInput.NormalizeClean | telegram_loan_bot.py:45-51 | the cleaned text contains no space and no comma |
| TextInput.NormalizeSingle | telegram_loan_bot.py:46 | a space disappears, a comma becomes a dot, any other character stays |
| TextInput.NormalizeConcat | telegram_loan_bot.py:46 | the clean-up works character by character, keeping the order of what it keeps |
| TextInput.NormalizeAround | telegram_loan_bot.py:46 | cleaning `a + [c] + b` is cleaning `a`, then `c` alone, then `b` |
| TextInput.NormalizeFixed | telegram_loan_bot.py:46 | text without spaces and commas is left unchanged |
| TextInput.NormalizeIdempotent | telegram_loan_bot.py:46 | cleaning twice gives the same text as cleaning once |
| TextInput.NormalizeLength | telegram_loan_bot.py:46 | the cleaned text is shorter by exactly the number of spaces |
| TextInput.TrimStartShape | telegram_loan_bot.py:54 | removing leading whitespace leaves a suffix that does not start with whitespace, and all that was removed is whitespace |
| TextInput.TrimEndShape | telegram_loan_bot.py:54 | removing trailing whitespace leaves a prefix that does not end with whitespace, and all that was removed is whitespace |
| TextInput.Strip | telegram_loan_bot.py:53-55 | Python's `str.strip`, as in `parse_term` and `name_received`; its meaning is stated by `TextInput.StripShape` and `TextInput.StripEmptyIff` |
| TextInput.StripShape | telegram_loan_bot.py:54 | the stripped text is a slice of the input; what is cut on either side is whitespace; a non-empty result starts and ends with a character that is not whitespace |
| TextInput.StripEmptyIff | telegram_loan_bot.py:309-312 | the stripped text is empty exactly when every character is whitespace |
| Export.ScheduleCsvRows | telegram_loan_bot.py:108-121 | the rows written, one at a time, are exactly the export table |
| Export.ExportLayout | telegram_loan_bot.py:111-120 | the table has `8 + n` rows: the six summary rows in their fixed order, an empty row, the header, then row `8 + i` is schedule row `i` |
| Export.DataRowsAt | telegram_loan_bot.py:119-120 | the data rows are one per schedule row, in schedule order |
| Export.ParseDataRows | telegram_loan_bot.py:119-120 | the data rows read back to the schedule rows |
| Export.ExportRoundTrip | telegram_loan_bot.py:108-121 | reading the export table back gives exactly the rows and the summary that were written |
| Contract.AmortizationTable | telegram_loan_bot.py:214-224 | the PDF table has a header row and then one row per schedule row, in order, each holding the month and the four amounts printed with two decimals |
| Contract.NatDigitsRoundTrip | telegram_loan_bot.py:220-223 | the decimal digits of a whole number read back to the number |
| Contract.Unsigned2RoundTrip | telegram_loan_bot.py:220-223 | a non-negative amount printed with two decimals reads back to the same cents |
| Contract.Fixed2 | telegram_loan_bot.py:220-223 | the `:.2f` text of a whole-cent amount; its meaning is stated by `Contract.Fixed2RoundTrip` |
| Contract.Fixed2RoundTrip | telegram_loan_bot.py:220-223 | any whole-cent amount, negative ones included, printed with two decimals reads back to the same cents |
| Contract.TableRowFaithful | telegram_loan_bot.py:218-224 | each amount in a PDF table row reads back to the schedule row's value |
| Conversation.ParseNumber | telegram_loan_bot.py:45-51 | `float` of the cleaned text; its meaning is stated by `Conversation.NumberSpellings` |
| Conversation.NumberSpellings | telegram_loan_bot.py:45-51 | an amount or rate reads the same with a space inside it as without, and with a decimal comma as with a decimal dot |
| Conversation.ParseTerm | telegram_loan_bot.py:53-55 | `int` of the stripped text; its meaning is stated by `Conversation.TermIgnoresPadding` |
| Conversation.TermIgnoresPadding | telegram_loan_bot.py:53-55 | a term reads the same with or without surrounding white space |
| Conversation.Step | telegram_loan_bot.py:260-313 | a message either leaves the session unchanged or moves to the next question; the amount moves on exactly when it parses and is > 0, the term when it parses and is > 0, the rate when it parses and is >= 0, the manual payment when it parses and is > 0, and the name when it is not blank after stripping |
| Conversation.Handle | telegram_loan_bot.py:358-368 | with the handlers `calc_start` and `cancel` wired as here, a message is handled by the current state's handler; `/calc` starts the amount question only when no conversation is running and is ignored otherwise; `/cancel` ends the conversation; any other command changes nothing; only a message can change the stored answers |
| Conversation.HandleKeepsCollected | telegram_loan_bot.py:256-348 | `/calc`, `/cancel` and every message keep all answers before the pending question stored and valid |
| Conversation.RunKeepsCollected | telegram_loan_bot.py:256-348 | any sequence of events keeps all answers before the pending question stored and valid |
| Conversation.FinishedConversation | telegram_loan_bot.py:308-320 | when the name ends the conversation, all five answers are stored and valid, and in exact rational arithmetic the payment for the collected term and rate can always be computed; the bot's floats raise at line 63, inside the `build_schedule` call of line 320, whenever `1 + r` rounds to 1 |
| Conversation.FiveValidAnswersFinish | telegram_loan_bot.py:260-313 | five messages that each pass their check end the conversation with exactly those five answers stored |

## Left out

- Telegram transport: replies, photos, documents, `ApplicationBuilder`, the `ConversationHandler` wiring, `/start`, `/help` and `main` are I/O. Only the state transitions are modelled. A message is its text.
- `schedule_chart_bytes` is matplotlib rendering with no logic of its own.
- `make_contract_pdf_bytes`: the reportlab layout, the fonts, the conditions table and `datetime.now()` are library calls and the clock. Only the `data` list of the amortization table is modelled.
- Floating point: Python floats, their binary rounding and the real-valued `**` are replaced by exact rationals. `Round2` rounds half to even on the exact value, while Python's `round` works on the nearest binary float, so results can differ on a tie that binary floats do not represent exactly. Far larger gaps appear at tiny positive rates. A rate of about 1e-10 % loses most of its digits in `1 + r`, so the float payment can be off by much more than a cent. A rate such as "0,00000000000001" makes `1 + r` round to exactly 1.0, so line 63 divides by zero.
- Annuity.NonNegativeRateComputable: holds in exact arithmetic only. In the bot, a positive rate for which `1 + r` rounds to 1.0 raises `ZeroDivisionError` at line 63.
- Conversation.FinishedConversation: the payment is computable in exact arithmetic only. For the tiny rates above, the bot accepts the rate and then raises in `build_schedule`, called from `name_received` at line 320. The exception leaves `name_received` after the name is stored at line 313, so the bot's conversation stays at the name question with the name stored, while `Step` moves to `End`.
- Annuity.AnnuityPayment: the `**` with a negative exponent is modelled as `1 / (1 + r)^n` with a natural `n`. That is the same value, but it is computed exactly, not in floating point.
- Amortization.BuildSchedule: the principal is a whole number of cents. The bot accepts any positive float, including amounts with fractions of a cent, and then only the summary rounds it. The running totals are exact integers, not float sums.
- The float-sum error of `total_interest += interest` is not modelled, because the totals are exact.
- Parsing: Python's `float` and `int` are parameters (`string -> Option<…>`), so what they accept (exponents, underscores, `nan`, `inf`) is not modelled. A parse error is `None`.
- After storing the name, `name_received` builds the schedule and sends the summary, chart, CSV and PDF. Sending is I/O; the schedule and the export it builds are the `Amortization` and `Export` models.
- Export: the CSV quoting, the `;` delimiter and the `utf-8-sig` encoding are library behaviour. The model produces the list of rows, each a list of cells. Amounts are cents, and the rate is the percentage as given.
- Logging configuration is left out.
- Amortization.RemainingNonIncreasing: it is stated about the remaining balance shown, `max(balance, 0)`. The raw balance can go below zero before the last month, as in the 0 % example above.
- Commands: which texts Telegram counts as commands is not modelled. `Message` stands for a text that is not a command. A command such as `/x` sent at the name question reaches no handler, and if it were a `Message` then `Step` would store "/x" as the name.
