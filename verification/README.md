# flippr — a Dafny model of the personal-finance app's form, list and registration logic

flippr is a personal-finance web app: a React front end with login and registration pages, a
financial overview (category pie chart, budgets, AI insights, an advisor chat), a transactions page and a
notifications page, plus a Flask/MySQL back end. This project models the logic inside those pages,
and the server's `/register` handler, as pure functions over immutable values, and proves what the
pages promise.

| module | models |
|---|---|
| `Wrappers` | `Option` |
| `Text` | JavaScript `trim`, the `\s` and `\d` character classes, `split` on one character, and `replace` with a string pattern (first occurrence only, `$` patterns of the replacement expanded) |
| `EmailFormat` | the registration page's e-mail regular expression, characterised without regular expressions |
| `RegisterForm` | the registration form: edit handler, `validateForm`, the submit guard and the reset |
| `LoginForm` | the login form: the same four pieces |
| `Insights` | the "Financial Insights" list drawn from the report's advisory text |
| `FinancialOverview` | `getPieChartData`, the budget colour thresholds and the advisor chat's send and reply |
| `Transactions` | the add-transaction form and its request body, and removing a deleted transaction |
| `Notifications` | `groupByDate`, the badge colour and the card background |
| `Backend` | the `/register` handler against a `users` table |

Conventions of the model:

- A form's error map is a `map<Field, string>`. The edit handlers write `""` into it instead of removing
  the key, so an error is *shown* when its key is present with a non-empty message.
- JavaScript `trim()` and the regular-expression class `\s` use the same whitespace set. It is defined
  once, as `Text.IsSpace`. A leading `\s*` is then `Text.TrimStart`.
- Server answers, the user's confirmation dialog, and the availability of a report or a database
  connection are boolean or `Option` parameters of the transitions.
- `toLocaleDateString`, which turns a notification's `created_at` into its group heading, is the
  parameter `dateKey`. Its en-US long-month output always contains letters, so it is never an
  integer-like key, nor a property every object inherits such as "constructor" or "toString". So
  `Object.entries` lists the groups in insertion order, which is the order modelled here.
- The bcrypt hash is the parameter `hashpw` and its random salt the parameter `salt`. The table is
  the sequence of `users` rows.
- A JSON member is `Absent`, `Null` or a string. Python's `not` is true for all three when the string
  is empty. `data.get(name, default)` supplies the default only for a missing member; an explicit
  `null` is stored as SQL `NULL`.

## Model

| member | source | states |
|---|---|---|
| `Text.Trim` | frontend/src/components/Register.js:48 | `trim()`; its contract is carried by `Text.TrimIsMiddle` and `Text.TrimEmptyIffBlank` |
| `Text.TrimIsMiddle` | frontend/src/components/Register.js:48 | `trim()` keeps the part of the text between a whitespace prefix and a whitespace suffix, and that part neither starts nor ends with whitespace, so the removed runs are the longest ones |
| `Text.TrimEmptyIffBlank` | frontend/src/components/Register.js:48 | `trim()` gives the empty string exactly when every character is whitespace, which is the "required" test of every form field |
| `Text.Split` | frontend/src/components/FinancialOverview.js:350 | `split('\n')` yields one more piece than there are newlines; no piece holds a newline; joining the pieces with newlines gives back the text |
| `Text.Expand` | frontend/src/components/FinancialOverview.js:89 | the replacement text of `replace` with a string pattern: a replacement without `$` is inserted as written; `Text.ExpandTemplates` and `Text.ExpandLiterals` state what every part of a replacement becomes |
| `Text.ExpandTemplates` | frontend/src/components/FinancialOverview.js:89 | for every replacement, read from the front: `$$`, `$&`, `` $` `` and `$'` become a dollar, the match, the text before it and the text after it |
| `Text.ExpandLiterals` | frontend/src/components/FinancialOverview.js:89 | the rest of a replacement is literal: the empty replacement gives nothing, a `$` before any other character or at the end stays a dollar, and every other character stands for itself |
| `Text.DollarAmpersandRepeatsMatch` | frontend/src/components/FinancialOverview.js:89 | `"abc".replace("b", "$&$&")` is "abbc": `$&` repeats the match rather than being pasted in literally |
| `Text.ReplaceFirst` | frontend/src/components/FinancialOverview.js:89 | string-pattern `replace` leaves a text without an occurrence unchanged |
| `Text.ReplaceFirstAt` | frontend/src/components/FinancialOverview.js:89 | string-pattern `replace` splices the expanded replacement in at the first occurrence and keeps the rest of the text |
| `EmailFormat.EmailPatternIff` | frontend/src/components/Register.js:51 | the e-mail pattern matches exactly the strings with no whitespace, exactly one `@` that is not first, and a `.` after the `@` that is neither the first nor the last character of the domain part |
| `RegisterForm.HandleChange` | frontend/src/components/Register.js:40-44 | only the edited field takes the value; that field's error is cleared (present, empty); every other field and error entry is unchanged |
| `RegisterForm.Validate` | frontend/src/components/Register.js:46-60 | username and password errors iff blank; a blank e-mail is "required", a non-blank malformed one "invalid", never both; a blank confirmation is "required" and overrides the mismatch, which otherwise appears iff the raw strings differ; full name and currency never get errors |
| `RegisterForm.ValidationPassesIff` | frontend/src/components/Register.js:46-60 | the error map is empty exactly when username and password are not blank, the e-mail is well shaped and the confirmation equals the password |
| `RegisterForm.Submit` | frontend/src/components/Register.js:62-78 | once `handleSubmit` runs, it posts exactly when validation passes, with the raw field values; otherwise it stores the validation errors, at least one of them, and sends nothing |
| `RegisterForm.Finish` | frontend/src/components/Register.js:89-111 | a successful registration resets every field to empty with currency "USD"; a failure keeps the form |
| `RegisterForm.MismatchMessageOutlivesFix` | frontend/src/components/Register.js:40-58 | after a mismatch is reported, making the password equal the confirmation clears only the password's error, so "Passwords do not match" stays on screen though the mismatch check now passes; if the rest of the form is valid, the registration is posted with the message still shown |
| `LoginForm.HandleChange` | frontend/src/components/Login.js:35-39 | only the edited field takes the value and only its error is cleared |
| `LoginForm.Validate` | frontend/src/components/Login.js:41-46 | each field has an error exactly when it is blank, with the fixed message |
| `LoginForm.ValidationPassesIff` | frontend/src/components/Login.js:41-46 | the error map is empty exactly when both fields are not blank |
| `LoginForm.Submit` | frontend/src/components/Login.js:48-61 | once `handleSubmit` runs, it posts exactly when both fields are not blank; otherwise it stores the errors and at least one is shown |
| `LoginForm.Finish` | frontend/src/components/Login.js:74-89 | a successful login empties both fields; a failure changes nothing |
| `Insights.NonBlankLines` | frontend/src/components/FinancialOverview.js:351 | the kept lines are exactly the non-blank ones, each from the input |
| `Insights.NonBlankLinesAppend` | frontend/src/components/FinancialOverview.js:351 | filtering distributes over concatenation, so kept lines stay in input order |
| `Insights.InsightItems` | frontend/src/components/FinancialOverview.js:349-359 | the items are the cleaned non-blank lines, one to one and in order, and there are at most as many items as lines |
| `Insights.StripListNumber` | frontend/src/components/FinancialOverview.js:359 | the number strip only removes a prefix of the line; `Insights.StripListNumberChangesIff` and `Insights.StripListNumberOf` say which |
| `Insights.StripBullet` | frontend/src/components/FinancialOverview.js:359 | the bullet strip; its contract is carried by `Insights.StripBulletIsSuffix`, `Insights.StripBulletChangesIff` and `Insights.StripBulletOf` |
| `Insights.StripBulletIsSuffix` | frontend/src/components/FinancialOverview.js:359 | the bullet strip only removes a prefix of the line |
| `Insights.CleanLine` | frontend/src/components/FinancialOverview.js:359 | the number strip followed by the bullet strip; its contract is carried by `Insights.CleanLineIsSuffix`, `Insights.NumberThenBullet`, `Insights.BulletThenNumberKeepsNumber`, `Insights.IndentedNumberKept` and `Insights.PlainLineUnchanged` |
| `Insights.CleanLineIsSuffix` | frontend/src/components/FinancialOverview.js:359 | the displayed item is what is left of the line after removing a prefix of it |
| `Insights.StripListNumberChangesIff` | frontend/src/components/FinancialOverview.js:359 | the number strip changes a line exactly when it starts with digits and a dot, and leaves no leading whitespace |
| `Insights.StripBulletChangesIff` | frontend/src/components/FinancialOverview.js:359 | the bullet strip changes a line exactly when a dash follows its leading whitespace, and leaves no leading whitespace |
| `Insights.StripListNumberOf` | frontend/src/components/FinancialOverview.js:359 | digits, a dot and whitespace are removed, and nothing more |
| `Insights.StripBulletOf` | frontend/src/components/FinancialOverview.js:359 | whitespace, a dash and whitespace are removed, and nothing more |
| `Insights.IndentedNumberKept` | frontend/src/components/FinancialOverview.js:359 | whitespace before the digits keeps the number, the pattern being anchored |
| `Insights.NumberThenBullet` | frontend/src/components/FinancialOverview.js:359 | "1. - x" becomes "x": the number goes first and the uncovered bullet next |
| `Insights.BulletThenNumberKeepsNumber` | frontend/src/components/FinancialOverview.js:359 | "- 1. x" becomes "1. x": the bullet goes but the number behind it stays |
| `Insights.PlainLineUnchanged` | frontend/src/components/FinancialOverview.js:359 | a line with neither prefix is shown as written, trailing whitespace included |
| `Insights.SingleLineInsight` | frontend/src/components/FinancialOverview.js:349-359 | a non-blank text without newlines gives exactly one item |
| `FinancialOverview.IncomeBorderIsOpaqueFill` | frontend/src/components/FinancialOverview.js:80-89 | the income border is the income fill with its alpha `0.6` replaced by `1` |
| `FinancialOverview.ExpenseBorderIsOpaqueFill` | frontend/src/components/FinancialOverview.js:80-89 | the expense border is the expense fill with its alpha `0.6` replaced by `1` |
| `FinancialOverview.PieChartData` | frontend/src/components/FinancialOverview.js:76-94 | no report or no categories gives no labels and no datasets; otherwise one dataset aligned index by index with the categories: name as label, the non-negative magnitude as value, teal fill and border iff the type is "Income", width 1 |
| `FinancialOverview.BudgetTextColour` | frontend/src/components/FinancialOverview.js:316 | the "Spent / Limit" text is `red.500` exactly when spent exceeds the limit and `teal.600` exactly when it does not |
| `FinancialOverview.BudgetBarScheme` | frontend/src/components/FinancialOverview.js:322 | the progress bar is `red` exactly when spent reaches the limit and `teal` exactly when it is below |
| `FinancialOverview.BudgetColoursDisagreeOnlyAtLimit` | frontend/src/components/FinancialOverview.js:316-322 | the text is red iff spent exceeds the limit, the bar iff it reaches it; they disagree exactly at `spent == limit`, text teal and bar red |
| `FinancialOverview.SendMessage` | frontend/src/components/FinancialOverview.js:97-109 | a blank input or a missing report changes nothing and sends nothing; otherwise the user's message is appended, the box cleared, the wait begun and the raw input sent |
| `FinancialOverview.ReceiveReply` | frontend/src/components/FinancialOverview.js:111-125 | exactly one bot message is appended, the reply or the fixed apology, and the wait ends |
| `FinancialOverview.ExchangeAppendsQuestionThenAnswer` | frontend/src/components/FinancialOverview.js:97-125 | a completed exchange keeps the transcript and adds the question then one bot message |
| `Transactions.HandleChange` | frontend/src/components/Transactions.js:81-84 | only the edited field takes the value |
| `Transactions.OrNull` | frontend/src/components/Transactions.js:96-97 | `s \|\| null` is `null` exactly for the empty string and the string itself otherwise |
| `Transactions.BuildPayload` | frontend/src/components/Transactions.js:92-98 | amount, description and date are copied; each id is `null` exactly when unselected, else copied |
| `Transactions.PayloadRoundTrip` | frontend/src/components/Transactions.js:92-98 | the form can be recovered from the body, so building it loses nothing |
| `Transactions.PayloadHasNoEmptyIds` | frontend/src/components/Transactions.js:96-97 | the body never carries an empty id |
| `Transactions.FinishSubmit` | frontend/src/components/Transactions.js:112-131 | success empties every field, failure keeps the form; the list is untouched |
| `Transactions.WithoutId` | frontend/src/components/Transactions.js:143 | the kept rows are exactly the rows with another id; with no match the list is unchanged |
| `Transactions.WithoutIdAppend` | frontend/src/components/Transactions.js:143 | the filter distributes over concatenation, so kept rows keep their order |
| `Transactions.WithoutIdIdempotent` | frontend/src/components/Transactions.js:143 | deleting an id twice is deleting it once |
| `Transactions.WithoutIdRemovesExactlyMatches` | frontend/src/components/Transactions.js:143 | the list shrinks by exactly the number of rows with that id |
| `Transactions.HandleDelete` | frontend/src/components/Transactions.js:134-143 | declining or a failed request leaves the page as it was; otherwise the list becomes the list shown when Delete was clicked, filtered: exactly the rows with that id go, the rest in their order |
| `Transactions.SequentialDeletesRemoveBoth` | frontend/src/components/Transactions.js:134-143 | when each delete finishes before the next click, two deletes remove the rows of both ids and keep every other row |
| `Transactions.OverlappingDeletesRestoreRow` | frontend/src/components/Transactions.js:134-143 | two deletes clicked on the same render both filter that render's list, so the second answer restores the row the first one removed: `[a, b]` ends as `[a]` |
| `Notifications.FileUnder` | frontend/src/components/Notifications.js:56-57 | one step of the loop: existing groups keep place and date, only the group of the date grows by the notification at its end, and an unseen date opens a new last group; headings stay distinct |
| `Notifications.GroupByDate` | frontend/src/components/Notifications.js:48-60 | no heading appears twice; `Notifications.GroupByDateHeadings`, `Notifications.GroupByDateContents` and `Notifications.GroupByDateIsPermutation` relate it to the reference definitions |
| `Notifications.GroupByDateHeadings` | frontend/src/components/Notifications.js:48-60 | the headings are the dates in order of first appearance, each once |
| `Notifications.GroupByDateContents` | frontend/src/components/Notifications.js:48-60 | each group holds exactly the notifications of its date, in input order |
| `Notifications.GroupByDateIsPermutation` | frontend/src/components/Notifications.js:48-60 | the groups read one after another are a permutation of the input |
| `Notifications.EachNotificationInItsOwnGroup` | frontend/src/components/Notifications.js:48-60 | every notification has a group for its date and is in that group and in no other |
| `Notifications.EmptyInputNoGroups` | frontend/src/components/Notifications.js:48-60 | no notifications, no groups |
| `Notifications.BadgeScheme` | frontend/src/components/Notifications.js:207-213 | red exactly for "budget", green exactly for "savings", teal for every other type |
| `Notifications.CardBackground` | frontend/src/components/Notifications.js:187 | white exactly when read, `teal.50` exactly when unread |
| `Backend.GetOr` | backend/app.py:32-33 | the default only for a missing member; `null` gives no value; a string is kept |
| `Backend.Register` | backend/app.py:26-59 | a falsy username, e-mail or password gives 400 "Missing required fields"; then no connection gives 500; then a username or e-mail already in the table gives 400 "Username or email already exists"; otherwise 201 and exactly one row is appended, with the hash of the password and full name "" and currency "USD" for missing members; every failure leaves the table unchanged |
| `Backend.RegisterKeepsUnique` | backend/app.py:48-58 | a table without repeated usernames or e-mails keeps that property |
| `Backend.RegisterTwiceRejected` | backend/app.py:48-59 | repeating a successful registration is rejected as a duplicate and the table keeps the one row |
| `Backend.RequestOf` | frontend/src/components/Register.js:72-78 | the registration page posts every member as a string |
| `Backend.FormPayloadPassesRequiredCheck` | backend/app.py:35-36 | whatever the registration page lets through its validation never meets the server's required-field error, and the stored full name and currency are the form's |

## Left out

- Rendering: JSX, Chakra UI styling, Chart.js registration and the shake animation are presentation.
- Network, toasts, `navigate` and `localStorage` are I/O. Their outcomes are parameters where a
  transition depends on them. The page that only logs out, the app's mounting code and the database
  connectivity script hold no logic modelled here.
- Locale date and time formatting is the parameter `dateKey`. An integer-like heading would be listed
  first by `Object.entries`, and a heading naming an inherited property ("constructor", "toString",
  "__proto__") would make the `push` at Notifications.js:56-57 throw; en-US long dates are neither.
- Floating point: `Math.abs`, amounts and budget comparisons are over reals. `toFixed` text and
  progress percentages, which can divide by zero, are not modelled.
- Backend.Register: bcrypt, the MySQL driver and SQL execution are foreign. A database error's 500
  (backend/app.py:60-64) is not modelled, and the duplicate query is exact string equality. A
  case-insensitive MySQL collation would also reject usernames differing only in case.
- Backend.RegisterKeepsUnique: requests are modelled as served one at a time. The development
  server is threaded (app.py:67), each request opens its own connection (app.py:41), and the
  duplicate query (app.py:48) and the insert (app.py:57-58) are separate statements. So two
  simultaneous registrations of one username or e-mail can both pass the check. Without a unique
  index both rows are stored; with one, the second gets a 500 instead of the 400. The invariant is
  proved only for requests served in sequence.
- Backend.Register: JSON members that are neither strings nor `null`, and a body that is not JSON, are
  not modelled.
- RegisterForm.Submit: the browser's own constraint validation is not modelled. The fields are
  `required` and the e-mail input has `type="email"` (Register.js:172-250). So the browser blocks the
  submit, and `handleSubmit` never runs, while a required field is empty or the address fails the HTML
  e-mail grammar (for example "ü@b.c"). It also strips line breaks and surrounding whitespace from the
  e-mail value before `handleChange` sees it. The contract describes `handleSubmit` once it runs.
- LoginForm.Submit: likewise, the `required` inputs (Login.js:150-172) make the browser block the
  submit of an empty field before `handleSubmit` runs. That constraint validation is not modelled.
- Insights.InsightItems: the advisory text is a string in the model. A report whose `ai_insights`
  is `null` or missing makes FinancialOverview.js:349-350 throw a TypeError while rendering.
- Transactions.HandleDelete: the Delete buttons stay enabled while a request is pending
  (Transactions.js:301-305). The model takes the list of the render in which Delete was clicked as a
  parameter, so overlapping deletes are expressed, but the server's side of a delete is not modelled.
- The loading flags of the forms, except the chat's, are not modelled: they only disable buttons.
- The login and transaction requests' server side, other than registration, is not modelled.
