# Meal-order calendar and user-input rules, modelled in Dafny

This project models the two pieces of logic in a small internal web app for
ordering workplace meals:

- **The meal-order calendar** (`src/app/food/food-order.tsx`).
  - The eligibility rule `isOrderable`: a date can be ordered while it is
    strictly after now, is not a Saturday or Sunday, and now is strictly
    before 21:00:00 on the day before it.
  - The display window: the Monday-based current week plus the next week,
    14 days in all, and `isCurrentWeek`.
  - The component state: the `orders` map from date keys to meals, the
    `orderData` list of `{userId, date, mealId}` records, `selectedDate`,
    and the meal and cancel dialog flags. The handlers `handleDateClick`,
    `handleOrderClick` and `handleCancelOrder` update it.
- **The sign-up and sign-in schemas** (`src/types/user-schema.ts`): length
  bounds, messages, the role enum with its default, and the password-match
  refinement.

## How the model is built

- Time (`LocalTime`):
  - An instant is an `int` count of local-time seconds since 1970-01-01T00:00
    (a Thursday), and every day is 86400 seconds long.
  - `DayOf` and `SecondOfDay` split an instant into a day and a clock time.
  - `Weekday` numbers days the way `Date.getDay` does: 0 is Sunday.
  - `AddDays`, `SetTime`, `StartOfWeek`, `EachDayOfInterval` and `IsWeekend`
    are the date-fns calls the logic makes.
- "Now" is an explicit parameter; the one-second `setInterval` clock is not
  modelled.
- A `yyyy-MM-dd` key names exactly one calendar day and each day gets its own
  key, so a key is represented by its day number (`FoodOrder.DateKeyOf`).
  That one-to-one correspondence is a modelling choice, not a proved fact.
- `FoodOrder.FoodOrderState` is a class holding the component's state fields.
  Each handler is a method that runs against the state of the latest render.
  - The store calls `saveOrder` and `deleteOrderByDateAndId` are foreign code.
    They are recorded in a `storeCalls` log.
  - Whether the awaited call resolves is a `bool` parameter. The local
    updates made before the `await` stay either way.
  - Each handler runs as one step: the code after its `await` runs at once
    or, for `false`, not at all. A call that is still pending is the
    `false` case; its later settling is a separate close event.
  - The meal dialog: "Order this meal" is a plain button, so only the
    handler's own closing line (after the `await`) closes the dialog. The
    meal dialog stays open until `saveOrder` resolves, and for good if it
    rejects. Meanwhile "Order this meal" can be clicked again
    (`FoodOrder.DoubleSubmitWhilePending`).
  - The cancel dialog: "Cancel Order" is the alert dialog's closing action.
    It runs `handleCancelOrder` and then reports the dialog closed
    (`onOpenChange`, line 254), so the cancel dialog closes even when the
    delete rejects. `HandleCancelOrder` is the handler alone;
    `ConfirmCancel` is the whole click.
  - Dismissing either dialog, or "Keep Order", only closes that dialog.
- `Valid()` is the invariant the handlers keep:
  - every record belongs to the signed-in user;
  - a date is a key of `orders` exactly when some record is for it, and the
    key maps to the meal of the latest such record;
  - `orderData` equals what replaying `storeCalls` would leave in a store that
    started empty, had no other writer and saw every call succeed.
- The schemas are functions that either accept an input or reject it with a
  list of issues (path and message). Fields are checked in declaration order,
  minimum length before maximum.
  - A length failure does not stop the password-match refinement from running.
    An invalid role does stop it, as the validator library's version 3 behaves.
  - Validation is a function of its input, so the same input always gets the
    same verdict. No separate lemma is needed for that.

Behaviour of the component worth knowing:
- An order or a cancellation can only be started for a date that was
  orderable when it was clicked. The date button is disabled otherwise
  (food-order.tsx:199), and `handleDateClick` checks the rule again
  (food-order.tsx:99). Neither `handleOrderClick` nor `handleCancelOrder`
  checks it again, and the clock keeps moving while a dialog is open. So a
  dialog opened before the cutoff can be confirmed after it. The date is
  then ordered or cancelled although it is no longer orderable
  (`FoodOrder.OrderAfterCutoff`, `FoodOrder.CancelAfterCutoff`).
- `orders` starts empty and is never loaded from the store
  (food-order.tsx:52-54).
- Nothing checks for a duplicate order except the dialog routing. While a
  `saveOrder` is pending the meal dialog is still open. A second click on
  "Order this meal" then appends a second record for the same date and
  issues a second `saveOrder`.

## Model

| member | source | states |
|---|---|---|
| `LocalTime.AddDays` | src/app/food/food-order.tsx:79 | `addDays` moves exactly `n` calendar days and keeps the time of day |
| `LocalTime.SetTime` | src/app/food/food-order.tsx:86-90 | `set(.., {hours, minutes, seconds})` keeps the day and sets the clock time |
| `LocalTime.StartOfWeek` | src/app/food/food-order.tsx:78 | the week start is a midnight on the requested weekday, at or before `t` and less than 7 days before it |
| `LocalTime.IsWeekend` | src/app/food/food-order.tsx:93 | `isWeekend`: the instant's day is a Saturday (weekday 6) or a Sunday (weekday 0) |
| `LocalTime.EachDayOfInterval` | src/app/food/food-order.tsx:80-83 | one midnight for every day from start's day through end's day, in order |
| `Eligibility.OrderCutoff` | src/app/food/food-order.tsx:86-90 | the cutoff falls on the day before `date`, at 21:00:00 |
| `Eligibility.IsOrderable` | src/app/food/food-order.tsx:85-96 | `isOrderable`: the date is strictly after now, is not a Saturday or Sunday, and now is strictly before `OrderCutoff(date)` |
| `Eligibility.WeekendNeverOrderable` | src/app/food/food-order.tsx:93 | a Saturday or Sunday is never orderable, whatever the time |
| `Eligibility.PastNeverOrderable` | src/app/food/food-order.tsx:92 | a date not strictly after now is never orderable |
| `Eligibility.CutoffPrecedesDate` | src/app/food/food-order.tsx:86-92 | the cutoff is three hours before the date's midnight, so it is earlier than the date |
| `Eligibility.OrderableByCutoffAlone` | src/app/food/food-order.tsx:85-96 | orderable iff a weekday and now is before the cutoff; the after-now check is implied |
| `Eligibility.OrderableInCalendarTerms` | src/app/food/food-order.tsx:85-96 | orderable iff a weekday and now is on an earlier day than the date's eve, or on the eve before 21:00:00 |
| `Eligibility.CutoffBoundary` | src/app/food/food-order.tsx:94 | at exactly the cutoff, not orderable; one second before, orderable iff a weekday |
| `Eligibility.NoOrderForTodayOrEarlier` | src/app/food/food-order.tsx:85-96 | no date on today or an earlier day is orderable |
| `Eligibility.TuesdayExample` | src/app/food/food-order.tsx:85-96 | 2024-06-11 (a Tuesday) is orderable at 2024-06-10T20:59:59 and not at 21:00:00 |
| `Window.CurrentWeekStart` | src/app/food/food-order.tsx:78 | a midnight on a Monday, at or before now and less than 7 days before it |
| `Window.NextWeekStart` | src/app/food/food-order.tsx:79 | the Monday midnight 7 days after the current week start, and later than now |
| `Window.DaysToDisplay` | src/app/food/food-order.tsx:80-83 | 14 dates, position i being the midnight i days after the current week start |
| `Window.IsCurrentWeek` | src/app/food/food-order.tsx:181 | true iff the date's day is before the day 7 days after the current week start |
| `Window.WindowShape` | src/app/food/food-order.tsx:78-83 | the window is 14 consecutive midnights from the Monday of now's week, and that Monday is at most 7 days before now; `isCurrentWeek` (line 181) holds exactly for the first 7 |
| `Window.WindowWeekdays` | src/app/food/food-order.tsx:78-93 | position i falls on weekday (i+1) mod 7, so exactly positions 5, 6, 12 and 13 are weekend days |
| `Window.WindowStableWithinDay` | src/app/food/food-order.tsx:78-83 | two instants on the same day give the same window |
| `Window.WindowOrderable` | src/app/food/food-order.tsx:176-199 | with today at position j (0 to 6) of the window, position i's button is enabled iff i is not a weekend position and it is at least two days after today, or it is tomorrow and the clock is before 21:00:00 |
| `FoodOrder.DateKeyOf` | src/app/food/food-order.tsx:100 | `format(date, "yyyy-MM-dd")`, represented by the day the key names (a modelling choice) |
| `FoodOrder.Kept` | src/app/food/food-order.tsx:151-152 | the filter's test: the record is for another date or by another user |
| `FoodOrder.DropOrder` | src/app/food/food-order.tsx:149-154 | the filter keeps exactly the records not both for the date and by the user, and never grows the list |
| `FoodOrder.DropOrderAppend` | src/app/food/food-order.tsx:149-154 | the filter distributes over concatenation, so kept records keep their order |
| `FoodOrder.DropOrderNoMatch` | src/app/food/food-order.tsx:149-156 | with no matching record the filter returns the list unchanged |
| `FoodOrder.DropOrderIdempotent` | src/app/food/food-order.tsx:149-154 | re-applying the filter changes nothing, so a second cancellation of a date leaves `orderData` as it was (it still issues a second delete call) |
| `FoodOrder.LastMealAfterDrop` | src/app/food/food-order.tsx:137-154 | after the filter no record is left for the cancelled date, and every other date keeps its latest meal |
| `FoodOrder.OrderKeepsConsistent` | src/app/food/food-order.tsx:111-132 | setting the key, appending the record and issuing `saveOrder` keep the invariant |
| `FoodOrder.CancelKeepsConsistent` | src/app/food/food-order.tsx:137-156 | deleting the key, filtering the records and issuing the delete keep the invariant |
| `FoodOrder.FoodOrderState.constructor` | src/app/food/food-order.tsx:52-61 | mounting starts with no orders, no records, no selection and both dialogs closed |
| `FoodOrder.FoodOrderState.HandleDateClick` | src/app/food/food-order.tsx:98-109 | a non-orderable date changes nothing; an orderable one is selected and opens the cancel dialog if its key is in `orders`, the meal dialog otherwise |
| `FoodOrder.FoodOrderState.HandleOrderClick` | src/app/food/food-order.tsx:111-135 | with a date selected: maps its key to the meal, appends one record, issues one `saveOrder`; the meal dialog closes once `saveOrder` resolves, and stays open if it rejects; the invariant is kept |
| `FoodOrder.FoodOrderState.HandleCancelOrder` | src/app/food/food-order.tsx:137-159 | with a date selected: removes only its key, drops exactly that user's records for it, issues one delete; the handler's own line 158 closes the cancel dialog unless the delete rejects; the invariant is kept |
| `FoodOrder.FoodOrderState.ConfirmCancel` | src/app/food/food-order.tsx:252-271 | the "Cancel Order" action runs the cancel handler and always closes the cancel dialog, whether the delete resolves or not |
| `FoodOrder.FoodOrderState.KeepOrder` | src/app/food/food-order.tsx:252-267 | "Keep Order" or dismissing the alert only closes the cancel dialog |
| `FoodOrder.FoodOrderState.DismissMealDialog` | src/app/food/food-order.tsx:218-250 | dismissing the meal dialog only closes it |
| `FoodOrder.DoubleSubmitWhilePending` | src/app/food/food-order.tsx:111-135 | a second "Order this meal" click while the first `saveOrder` is pending leaves two identical records and two `saveOrder` calls for the date |
| `FoodOrder.OrderAfterCutoff` | src/app/food/food-order.tsx:98-135 | a meal dialog opened one second before the cutoff can be confirmed after the cutoff, and the order is recorded although the date is no longer orderable |
| `FoodOrder.CancelAfterCutoff` | src/app/food/food-order.tsx:98-159 | a cancel dialog opened before the cutoff can be confirmed after it, and the order is removed locally whether or not the delete call resolves |
| `FoodOrder.OrderThenCancel` | src/app/food/food-order.tsx:98-159 | for an orderable date, ordering then cancelling (both calls resolving) leaves orders and records empty after exactly a save and a delete |
| `UserSchema.LengthIssues` | src/types/user-schema.ts:4-20 | no issue iff min <= length <= max; the too-short message appears iff too short and the too-long message iff too long; all issues are on the field |
| `UserSchema.ParseRole` | src/types/user-schema.ts:21 | accepts only an absent role, "user" or "admin"; it gives Admin only for "admin", so an absent role becomes User |
| `UserSchema.ParseSignUp` | src/types/user-schema.ts:3-25 | accepted iff the username is 6-50 long, both passwords are 8-50 long, the role is valid and the passwords are equal; the parsed value carries the role or its default; a rejection carries an issue, and an invalid role is always reported with its `role` issue |
| `UserSchema.SignUpUsernameMessages` | src/types/user-schema.ts:4-8 | the "at least 6" message appears iff the username is shorter than 6; the "at most 50" message iff it is longer than 50 |
| `UserSchema.SignUpPasswordMessages` | src/types/user-schema.ts:10-20 | each password field gets its min and max messages exactly when it is too short or too long |
| `UserSchema.SignUpMismatchMessage` | src/types/user-schema.ts:22-25 | with a valid role, "Passwords do not match" appears on `confirmPassword` iff the passwords differ |
| `UserSchema.RoleDefaultsToUser` | src/types/user-schema.ts:21 | a valid input without a role is accepted with role "user" |
| `UserSchema.ParseSignIn` | src/types/user-schema.ts:27-34 | accepted iff the username is 6-50 long and the password 8-50 long; the value has only those two fields; the messages match each bound |
| `UserSchema.SignUpImpliesSignIn` | src/types/user-schema.ts:3-34 | credentials accepted at sign-up are accepted at sign-in |

## Left out

- `FoodOrder.FoodOrderState.HandleOrderClick`, `FoodOrder.FoodOrderState.HandleCancelOrder`: each runs as one step, so the code after its `await` (lines 132-134 and 156-158) runs at once. In the app other events can run while the call is pending. A click during a pending call is modelled as the pending handler with `false`, followed by the new event. The call's later settling, which closes whichever dialog is open by then, is modelled as `DismissMealDialog` or `KeepOrder`.

- Time zones and daylight saving: every day is 86400 seconds of local time.
- Milliseconds: instants are whole seconds. The window's dates are whole seconds, so comparing them with a whole-second now gives the same result as comparing them with the millisecond clock.
- The one-second refresh clock (`setInterval`): now is a parameter of each operation.
- `LocalTime.EachDayOfInterval`: the library's branch for an end before the start is not modelled, because the window's end is always 13 days after its start.
- Date formatting: `yyyy-MM-dd` keys are day numbers, and the display strings (`EEE`, `MMMM d`, the `new Date(dateString)` parse on line 280) are not modelled.
- The extra `isEat: true` property of the record built on line 122 is not in the declared record type and is not modelled.
- The `isSameDay` highlight of today (line 178) is display only and not modelled.
- Rendering, the dialogs' markup, `console.log` and the fixed one-meal catalogue are not modelled. The handlers take the chosen meal as a parameter.
- `saveOrder` and `deleteOrderByDateAndId` (src/drizzle/actions.ts) are foreign database calls. Only the fact that they were called, with what arguments, and whether they resolved is modelled. The table's uniqueness constraint is not part of this model, because `ordersTable` is not defined in the schema file.
- Sign-up and sign-in server actions (password hashing, database insert, session cookies), the Lucia and Drizzle configuration, and the pages and hooks are foreign or rendering code.
- Validator inputs that are not strings, and unknown keys, are not modelled. String length is sequence length, not UTF-16 code units.
- `UserSchema.ParseRole`: the invalid-enum message is the validator library's version-3 default text, which the schema does not state.
