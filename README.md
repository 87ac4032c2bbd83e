# Sittara mobile client: a Dafny model of its screen logic

Sittara is a restaurant-reservation app written in React Native. The booking engine runs on
a server: table availability, overlap checks, the reservation state machine and deposit
gating. The app only reaches it through HTTP calls. The logic that does live in the app is
the logic of its screens:

- the keyed lists of saved addresses and saved cards (add, edit, delete with promotion of a
  new default, set default);
- the card-number and expiry formatters and the brand guess from the number;
- the favourites list;
- the open/closed badge of a restaurant card;
- the password-reset flow and its e-mail check;
- the review form;
- loyalty points and levels;
- the help-centre filter;
- relative times and icons of notifications;
- the time-slot picker;
- the table map;
- the defaults the table service applies to the server's records;
- the profile editor and its avatar upload metadata.

This project models each of these in Dafny 4.11 and proves properties of the models. There
is one module per source file:

- `KeyedList` holds the list rules that addresses and cards share;
- `Values` holds JavaScript's `undefined` and its truthiness rules for `||`;
- `Text` holds the string built-ins the screens call (`trim`, `split`, `indexOf`, `replace`,
  `toLowerCase`, `Number`, …).

Screen state that the source updates in place is a class. `KeyedList.DefaultList` holds its
list in an `array` field. `Favorites.FavoritesStore`, `ForgotPassword.ResetFlow`,
`RateReview.ReviewForm`, `Loyalty.LoyaltyScreen` and `EditProfile.ProfileEditor` are the
others. Computations are functions, and lemmas relate them.

External inputs are parameters:
- the server's answer;
- the current time;
- fresh ids (`Date.now().toString()`);
- the platform (iOS or not);
- the locale's date text.

The source and the written description disagree in one place. The description says that a
restaurant open 19:00 to 02:00 is open at 00:30. The code reports it closed.
`RestaurantCard.TodayStatusAsWritten` models the code as it is. `RestaurantCard.TodayStatus`
is the corrected rule, which also reads yesterday's hours. See "## Findings".

## Model

| member | source | states |
|---|---|---|
| Values.Or | components/RestaurantCard.tsx:28-29 | `a \|\| b` on optional strings is truthy iff either side is; it is `a` when `a` is truthy and `b` otherwise |
| Values.NumOr | src/services/restaurantService.ts:41-42 | `n \|\| d` on an optional number is `n` when it is present and non-zero, and `d` otherwise |
| Text.OnlyDigits | app/profile/payment-methods.tsx:77 | `replace(/\D/g, '')` yields only digits, no longer than its input; it leaves a digit string unchanged and drops a single non-digit |
| Text.OnlyDigitsConcat | app/profile/payment-methods.tsx:77 | the digits of `a + b` are the digits of `a` followed by those of `b`; with the one-character case this fixes the result as the input's digits in order |
| Text.OnlyDigitsKeepsDigits | app/profile/payment-methods.tsx:77 | every digit of the input is kept, as often as it occurs |
| Text.RemoveSpaces | app/profile/payment-methods.tsx:69 | `replace(/\s/g, '')` yields no whitespace, no longer than its input; it leaves a whitespace-free string unchanged and drops a single whitespace character |
| Text.RemoveSpacesConcat | app/profile/payment-methods.tsx:69 | removing whitespace from `a + b` gives the result for `a` followed by the result for `b`, so the kept characters stay in order |
| Text.RemoveSpacesKeepsRest | app/profile/payment-methods.tsx:69 | every character that is not whitespace is kept, as often as it occurs |
| Text.BlankIffAllSpace | app/profile/addresses.tsx:75 | `!s.trim()` holds exactly when every character of `s` is whitespace |
| Text.TrimIdempotent | app/profile/edit.tsx:203-204 | trimming a trimmed string changes nothing |
| Text.TrimBounds | app/profile/payment-methods.tsx:118 | `trim()` returns a slice of its input that neither starts nor ends with whitespace |
| Text.IndexOf | app/restaurant/rate.tsx:71 | `indexOf` returns the first position where the pattern occurs, or nothing when it occurs nowhere |
| Text.ContainsIff | app/restaurant/rate.tsx:71 | `includes` holds exactly when the pattern occurs at some position |
| Text.RemoveFirst | app/profile/edit.tsx:152 | `replace(pat, '')` with a string pattern cuts out the first occurrence only, and leaves a string without one unchanged |
| Text.Split | app/profile/payment-methods.tsx:110 | `split(c)` yields at least one part, no part holds `c`, and joining the parts with `c` gives the input back |
| Text.SplitPair | components/RestaurantCard.tsx:18 | two pieces without the separator, joined by one separator, split back into exactly those two pieces |
| Text.LastSegmentShape | app/profile/edit.tsx:147 | `split(c).pop()` is a suffix of the input without `c`, and it is the whole input or is preceded by `c` |
| Text.LastSegmentAfter | app/profile/edit.tsx:147-148 | the last segment of `a + c + b` is `b` when `b` has no `c` |
| Text.ParseNumber | components/RestaurantCard.tsx:18 | `Number(s)` of a clock field is a number exactly when the trimmed text is all digits, the empty text included |
| Text.ParseNumberOfNat | components/RestaurantCard.tsx:18 | `Number` of a number's decimal rendering gives that number back |
| Text.NatToStringRoundTrip | app/notifications/index.tsx:39-43 | the decimal rendering of a count reads back as that count |
| Text.Prefix | components/RestaurantCard.tsx:50 | `substring(0, n)` is the first `min(n, length)` characters |
| KeyedList.Appended | app/profile/addresses.tsx:89-94 | adding keeps the old list as a prefix and appends exactly one entry with the new id and fields, which is the default iff the list was empty |
| KeyedList.AppendedKeepsOneDefault | app/profile/addresses.tsx:92 | adding to a list with exactly one default, or to an empty list, leaves exactly one default |
| KeyedList.AppendedKeepsUniqueIds | app/profile/addresses.tsx:90 | adding under an id not in use keeps the ids unique |
| KeyedList.Replaced | app/profile/addresses.tsx:84-86 | editing keeps length, order, every id and every default flag; entries with the id get the form's fields, all others are unchanged |
| KeyedList.ReplacedKeepsOneDefault | app/profile/addresses.tsx:84-86 | editing keeps the one-default invariant |
| KeyedList.Without | app/profile/addresses.tsx:144 | after the filter no entry has the id, every entry with another id survives, and every survivor comes from the list |
| KeyedList.WithoutConcat | app/profile/addresses.tsx:144 | the filter distributes over concatenation, so the survivors keep their relative order |
| KeyedList.WithoutAbsent | app/profile/addresses.tsx:144 | deleting an id that is not in the list changes nothing |
| KeyedList.AfterDeleteShape | app/profile/addresses.tsx:144-147 | delete removes the id; it leaves every survivor as filtered except that, when the filtered list is non-empty without a default, its first entry becomes the default; a non-empty result has a default |
| KeyedList.AfterDeleteKeepsOneDefault | app/profile/addresses.tsx:144-147 | delete keeps the one-default invariant |
| KeyedList.WithDefault | app/profile/addresses.tsx:157-161 | set-default keeps length, ids and fields, and afterwards an entry is default iff its id is the chosen one |
| KeyedList.WithDefaultExactlyOne | app/profile/addresses.tsx:157-161 | with unique ids, choosing a present id leaves exactly one default and choosing an absent one leaves none |
| KeyedList.DefaultList.constructor | app/profile/addresses.tsx:34 | the list starts empty |
| KeyedList.DefaultList.Store | app/profile/addresses.tsx:65-68 | storing replaces the array with a fresh one holding exactly the new list |
| KeyedList.DefaultList.Add | app/profile/addresses.tsx:89-97 | the stored list becomes the old list with the new entry appended |
| KeyedList.DefaultList.Edit | app/profile/addresses.tsx:82-86 | the stored list becomes the old list with the id's fields replaced |
| KeyedList.DefaultList.Delete | app/profile/addresses.tsx:144-148 | filtering into a new array and promoting its first entry in place leaves the list after delete of the old list |
| KeyedList.DefaultList.SetDefault | app/profile/addresses.tsx:157-162 | the stored list becomes the old list with only the chosen id marked default |
| Addresses.EmptyForm | app/profile/addresses.tsx:106-115 | a reset form is a home address in "Mérida, Yucatán" with every text field empty |
| Addresses.SaveBranch | app/profile/addresses.tsx:74-95 | save is rejected iff name, street or neighbourhood is blank; otherwise it edits iff an editing id is set and non-empty, and adds otherwise |
| Addresses.Saved | app/profile/addresses.tsx:74-95 | a rejected save leaves the list; an edit replaces the fields of the editing id; an add appends the form under the new id |
| Addresses.SaveKeepsOneDefault | app/profile/addresses.tsx:80-97 | every save keeps the one-default invariant |
| Addresses.HandleSave | app/profile/addresses.tsx:74-104 | the handler reports the branch taken and stores exactly the saved list |
| Addresses.HandleDelete | app/profile/addresses.tsx:134-155 | a confirmed delete stores the list after delete |
| Addresses.HandleSetDefault | app/profile/addresses.tsx:157-165 | set-default stores the list with only the chosen id marked default |
| Addresses.SaveUnchangedForm | app/profile/addresses.tsx:120-131 | with unique ids, opening an address for editing and saving it unchanged leaves the list as it was |
| Addresses.LabelText | app/profile/addresses.tsx:175-181 | "Casa" iff home, "Trabajo" iff work, "Otro" for any other label |
| Addresses.LabelTextsDistinct | app/profile/addresses.tsx:175-181 | the three labels get three different texts |
| Addresses.Title | app/profile/addresses.tsx:222 | a card's title is never empty: it is the address's name when there is one, and otherwise its label's text, one of "Casa", "Trabajo" and "Otro" |
| PaymentMethods.DetectBrand | app/profile/payment-methods.tsx:68-74 | the brand is decided by the first non-whitespace character: 4 Visa, 5 or 2 Mastercard, 3 Amex, anything else or nothing Visa |
| PaymentMethods.BrandOfCleaned | app/profile/payment-methods.tsx:91-113 | the brand of the cleaned number equals the brand of the typed one |
| PaymentMethods.Group4Shape | app/profile/payment-methods.tsx:78-79 | grouping digits puts a space exactly at every fifth position and never at the end, so each group has four digits except a last one of one to four; the length is `n + (n-1)/4`; removing non-digits gives the digits back |
| PaymentMethods.FormatCardNumberShape | app/profile/payment-methods.tsx:76-80 | the formatted number is digits grouped in fours by single spaces, and its digits are exactly the digits typed |
| PaymentMethods.FormatCardNumberIdempotent | app/profile/payment-methods.tsx:76-80 | formatting a formatted number changes nothing |
| PaymentMethods.FormattedNumberCleans | app/profile/payment-methods.tsx:91 | removing the spaces of a formatted number gives exactly the digits typed |
| PaymentMethods.FormatExpiry | app/profile/payment-methods.tsx:82-88 | the expiry text is at most five characters |
| PaymentMethods.FormatExpiryShape | app/profile/payment-methods.tsx:82-88 | fewer than two digits are returned as they are; otherwise the first two digits, '/', and up to the next two |
| PaymentMethods.FormatExpiryIdempotent | app/profile/payment-methods.tsx:82-88 | formatting a formatted expiry changes nothing |
| PaymentMethods.ValidateCard | app/profile/payment-methods.tsx:91-108 | the checks run in order and the first failure names the error: fewer than 15 digits, expiry under 5 characters, CVV under 3, blank holder; no error iff all pass |
| PaymentMethods.LastFour | app/profile/payment-methods.tsx:114 | `slice(-4)` is the last `min(4, length)` characters |
| PaymentMethods.NewCardFields | app/profile/payment-methods.tsx:110-119 | an accepted card stores exactly the last four digits, a non-empty trimmed holder name, and the brand of the number |
| PaymentMethods.FormattedExpirySplits | app/profile/payment-methods.tsx:110 | a full "MM/YY" from the formatter splits into its month and year digits |
| PaymentMethods.AddedCards | app/profile/payment-methods.tsx:90-121 | a rejected card leaves the list; an accepted one is appended, default iff the list was empty |
| PaymentMethods.HandleAddCard | app/profile/payment-methods.tsx:90-126 | the handler returns the first failed check and stores exactly the added-cards list |
| PaymentMethods.HandleDeleteCard | app/profile/payment-methods.tsx:128-149 | a confirmed delete stores the list after delete, with the same promotion as addresses |
| PaymentMethods.HandleSetDefault | app/profile/payment-methods.tsx:151-159 | set-default stores the list with only the chosen id marked default |
| PaymentMethods.CvvInput | app/profile/payment-methods.tsx:264 | the CVV field holds only digits, keeps every typed digit as often as it was typed, and leaves a digit string unchanged |
| Favorites.RemoveAll | src/context/FavoritesContext.tsx:83 | removing an id drops every copy of it and keeps the membership of every other id |
| Favorites.RemoveAllConcat | src/context/FavoritesContext.tsx:83 | removal distributes over concatenation, so the others keep their order |
| Favorites.RemoveAllAbsent | src/context/FavoritesContext.tsx:83 | removing an absent id changes nothing |
| Favorites.Toggled | src/context/FavoritesContext.tsx:79-84 | a favourite is removed; any other id is appended at the end |
| Favorites.ToggleFlips | src/context/FavoritesContext.tsx:79-84 | toggling flips the id's membership and keeps every other id's |
| Favorites.ToggleTwiceRestores | src/context/FavoritesContext.tsx:79-84 | toggling a non-favourite twice gives back the same list |
| Favorites.LoadedIds | src/context/FavoritesContext.tsx:36 | one id per server record, in order: its `restaurant_id` when non-empty, else its `id` |
| Favorites.FavoritesStore.constructor | src/context/FavoritesContext.tsx:19 | the list starts empty |
| Favorites.FavoritesStore.IsFavorite | src/context/FavoritesContext.tsx:63-65 | an id is a favourite iff it occurs in the list |
| Favorites.FavoritesStore.Toggle | src/context/FavoritesContext.tsx:78-86 | the list becomes the toggled list and the id's favourite state flips |
| Favorites.FavoritesStore.LoadFromServer | src/context/FavoritesContext.tsx:34-37 | a successful answer with data replaces the list by the loaded ids; anything else leaves it |
| RestaurantCard.DayName | components/RestaurantCard.tsx:24-26 | weekday 0 is "sunday", 1 "monday", and so on to 6 "saturday", each in both directions |
| RestaurantCard.DayNamesDistinct | components/RestaurantCard.tsx:24-26 | different weekdays select different entries |
| RestaurantCard.ScheduleFor | components/RestaurantCard.tsx:28-39 | a closed weekday entry wins; a present entry overrides the flat times; the flat times are `open_time \|\| openTime` and `close_time \|\| closeTime`; there are times iff both sides are non-empty |
| RestaurantCard.ClockMs | components/RestaurantCard.tsx:16-22 | a clock text has a value iff it has a ':' and both the hour and minute parts are numbers; the value is never negative |
| RestaurantCard.ClockMsOf | components/RestaurantCard.tsx:16-22 | "H:M" written from numbers reads back as H hours and M minutes |
| RestaurantCard.ClockMsOfPadded | components/RestaurantCard.tsx:16-22 | a two-digit "HH:MM" reads as its hours and minutes |
| RestaurantCard.WindowsOnClock | components/RestaurantCard.tsx:41-49 | on clock values within a day, today's window is open from the opening time on, and up to the closing time when that is later; the same window read one day on holds exactly the part of an overnight window after midnight |
| RestaurantCard.TodayStatusAsWritten | components/RestaurantCard.tsx:14-51 | the code as written: "Cerrado hoy" on a closed day, "Cons. horario" without both times; otherwise open iff now lies between today's opening and the closing time, moved a day on when earlier; "Cierra" plus five characters of the close time when open, "Abre" plus five of the open time when not |
| RestaurantCard.TodayStatus | components/RestaurantCard.tsx:14-51 | the corrected rule: open iff now is in today's window or in the window of the previous weekday's own hours, read on that day's clock; an open badge names the closing time of the window it is in; a closed badge is the code's |
| RestaurantCard.AsWrittenImpliesIntended | components/RestaurantCard.tsx:41-50 | whatever the code shows as open, the corrected rule shows the same way; without yesterday's window running into the present moment the two badges are equal |
| RestaurantCard.OpenBadgeHasHours | components/RestaurantCard.tsx:39-50 | an open badge comes from today's or yesterday's hours, both of whose times parse, and names that closing time |
| RestaurantCard.OvernightWindow | components/RestaurantCard.tsx:45-49 | with the same overnight hours yesterday and today, between midnight and the closing time the code shows "Abre" while the corrected rule shows "Cierra" |
| RestaurantCard.CarryFromYesterday | components/RestaurantCard.tsx:45-49 | after midnight, yesterday's own overnight window keeps the corrected badge open with yesterday's closing time, whatever today's hours are |
| RestaurantCard.NoCarryAfterClosedDay | components/RestaurantCard.tsx:33-39 | after a weekday that is closed or has no hours, the corrected badge equals the code's |
| RestaurantCard.OvernightAfterMidnight | components/RestaurantCard.tsx:41-50 | with flat hours 19:00 to 02:00 on a Monday at 00:30 the code shows closed, "Abre 19:00", and the corrected rule shows open, "Cierra 02:00" |
| ForgotPassword.IsValidEmail | app/auth/forgot-password.tsx:28-30 | accepted iff some '@' and some later '.' split the address as `^[^\s@]+@[^\s@]+\.[^\s@]+$` requires |
| ForgotPassword.ValidEmailShape | app/auth/forgot-password.tsx:29 | an accepted address has no whitespace and exactly one '@', neither first nor last |
| ForgotPassword.SentEmailValid | app/auth/forgot-password.tsx:46 | an accepted address is unchanged by trimming, and the address sent (trimmed, lower-cased) is accepted too |
| ForgotPassword.NoDotRefused | app/auth/forgot-password.tsx:29 | an address without '.' is refused |
| ForgotPassword.ValidExample | app/auth/forgot-password.tsx:29 | "ana@sittara.mx" is accepted |
| ForgotPassword.MissingDotExample | app/auth/forgot-password.tsx:29 | "ana@sittara" is refused |
| ForgotPassword.Caught | app/auth/forgot-password.tsx:54-65 | an error shown to the user always has a non-empty message |
| ForgotPassword.Resolve | app/auth/forgot-password.tsx:45-65 | the screen shows "sent" iff the body reports success or the request failed with 404; an error always carries a non-empty message |
| ForgotPassword.NotFoundLooksSent | app/auth/forgot-password.tsx:55-60 | an unknown address gives the same outcome as a sent link |
| ForgotPassword.RefusedBodyMessage | app/auth/forgot-password.tsx:52 | an unsuccessful body shows its own error, or "Error al enviar" when it has none |
| ForgotPassword.ResetFlow.constructor | app/auth/forgot-password.tsx:24-26 | the flow starts at the e-mail step, with no message and not loading |
| ForgotPassword.ResetFlow.SendResetLink | app/auth/forgot-password.tsx:32-69 | an invalid address sends nothing and changes nothing; a valid one sends it trimmed and lower-cased, ends not loading, and moves to "sent" or to "error" with the resolved message |
| ForgotPassword.ResetFlow.TryAgain | app/auth/forgot-password.tsx:71-74 | back to the e-mail step with the message cleared |
| RateReview.Given | app/restaurant/rate.tsx:53-56 | a category rating is sent iff it is above zero, and then as itself |
| RateReview.FilledStarsCount | app/restaurant/rate.tsx:96-97 | a row of `n` stars shows exactly `min(value, n)` filled |
| RateReview.ReviewForm.constructor | app/restaurant/rate.tsx:31-36 | every rating starts at zero and the comment empty |
| RateReview.ReviewForm.RatingOf | app/restaurant/rate.tsx:31-35 | in a valid form every rating is at most five |
| RateReview.ReviewForm.PressStar | app/restaurant/rate.tsx:88-91 | pressing star k sets that row to k, keeps the other rows and the comment, and keeps every rating within 0..5 |
| RateReview.ReviewForm.SetComment | app/restaurant/rate.tsx:36 | typing sets the comment and keeps every rating |
| RateReview.ReviewForm.Submit | app/restaurant/rate.tsx:38-58 | missing ids are reported first, then a missing overall rating; otherwise the request carries the ids, the overall rating, the comment, and each category only when rated |
| RateReview.ReviewForm.EnabledSubmitSends | app/restaurant/rate.tsx:178 | with the button enabled and the ids present, submit always sends an overall rating of 1 to 5 |
| RateReview.OnError | app/restaurant/rate.tsx:67-80 | the "already rated" notice iff the message, or its default, contains either marker; otherwise an error alert with that text |
| RateReview.DuplicateAnywhere | app/restaurant/rate.tsx:71 | a message containing "duplicate" anywhere is taken as already rated |
| RateReview.NoMessageDefault | app/restaurant/rate.tsx:68-78 | without a message the default text is shown as an error |
| Loyalty.Completed | app/profile/loyalty.tsx:73 | the filter keeps exactly the completed reservations |
| Loyalty.CompletedConcat | app/profile/loyalty.tsx:73 | the filter distributes over concatenation, so order is kept |
| Loyalty.PointsGrow | app/profile/loyalty.tsx:73-74 | a further reservation adds ten points iff it is completed |
| Loyalty.History | app/profile/loyalty.tsx:78-84 | one ten-point visit per completed reservation, in order, with its id and date, named after its restaurant or "Restaurante" |
| Loyalty.HistoryMatchesPoints | app/profile/loyalty.tsx:74-84 | the history's points add up to the points shown |
| Loyalty.CurrentLevel | app/profile/loyalty.tsx:94 | Platinum VIP iff at least 100 points, Gourmet Pro iff 50 to 99, Foodie Activo iff under 50 |
| Loyalty.LevelMonotone | app/profile/loyalty.tsx:94 | more points never give a lower level |
| Loyalty.Threshold | app/profile/loyalty.tsx:137 | a perk needs 100 points iff its level is Platinum VIP, 50 iff Gourmet Pro, and none for any other level name |
| Loyalty.UnlockedIffLevelReached | app/profile/loyalty.tsx:94-137 | a perk is unlocked iff the current level has reached its level |
| Loyalty.UnlockMonotone | app/profile/loyalty.tsx:137 | more points never lock a perk that fewer points unlocked |
| Loyalty.PerkExtremes | app/profile/loyalty.tsx:28-53 | the Foodie Activo perk is always unlocked, and every perk is unlocked from 100 points on |
| Loyalty.LoyaltyScreen.constructor | app/profile/loyalty.tsx:58-60 | no points, loading, empty history |
| Loyalty.LoyaltyScreen.Load | app/profile/loyalty.tsx:66-92 | a successful answer sets the points and history from the reservations; otherwise they stay; loading ends either way |
| HelpCenter.EveryQuestionHasAChip | app/profile/help.tsx:35-78 | every question of the FAQ list belongs to one of the category chips other than "all" |
| HelpCenter.Filtered | app/profile/help.tsx:86-91 | the result is drawn from the items, every item in it passes the filter, and every item that passes is in it |
| HelpCenter.FilteredConcat | app/profile/help.tsx:86 | the filter distributes over concatenation, so the result is an order-preserving subsequence |
| HelpCenter.EmptyQueryMatches | app/profile/help.tsx:88-90 | the empty query matches every question |
| HelpCenter.SearchIgnoresQueryCase | app/profile/help.tsx:88-89 | a query and its lower-cased form match the same items |
| HelpCenter.AllAndEmptyShowsAll | app/profile/help.tsx:82-91 | "all" with no query lists every item in order |
| HelpCenter.CategoryNarrows | app/profile/help.tsx:87 | a category never shows more items than "all" with the same query |
| HelpCenter.CategoryExact | app/profile/help.tsx:87-90 | with no query, a category shows exactly the items of that category |
| HelpCenter.ToggleExpanded | app/profile/help.tsx:215 | tapping expands the tapped question unless it was the expanded one, which collapses |
| HelpCenter.ToggleTwice | app/profile/help.tsx:215 | a second tap on the same question folds it again |
| Notifications.AgeOf | app/notifications/index.tsx:36-44 | under a minute, future times included, is "just now"; otherwise whole minutes under 60, hours under 24, days under 30, each bounding the age, and the date from 30 days on |
| Notifications.AgeMonotone | app/notifications/index.tsx:36-44 | an older notification never lands in a younger bucket |
| Notifications.FormatTimeAgo | app/notifications/index.tsx:33-48 | an unparsable date shows the date text; otherwise the bucket's text for the age |
| Notifications.AgeTextNumber | app/notifications/index.tsx:39-43 | a relative text starts with "hace ", and hours and days take a plural 's' iff the count is above one |
| Notifications.IconFor | app/notifications/index.tsx:50-63 | the four known types get their own icon and colours, and every other type gets the bell |
| Notifications.IconColorsDistinct | app/notifications/index.tsx:50-63 | different icons never share a colour |
| Notifications.MarkRequest | app/notifications/index.tsx:78-83 | a mark-as-read request is sent iff the notification is unread, and for its id |
| TimeSlotPicker.Picker | components/TimeSlotPicker.tsx:13-48 | no slots shows the empty notice; otherwise one button per slot in order, with the normalised time, selected iff the time is the selected one, and a deposit badge iff the slot requires one |
| TimeSlotPicker.BareLikeDetailed | components/TimeSlotPicker.tsx:31-32 | a bare time is drawn exactly as an object slot with that time and no deposit |
| TimeSlotPicker.PressSelectsOne | components/TimeSlotPicker.tsx:33-39 | pressing a button selects its time, and with distinct times that button is the only one marked |
| RestaurantService.TableOf | src/services/restaurantService.ts:31-43 | id, restaurant id, number and capacity are copied; status, zone and shape default to "available", "main" and "round"; x and y take `position_x`, then `x`, then 0; width and height default to 60 |
| RestaurantService.TablesOf | src/services/restaurantService.ts:31-43 | missing data gives no tables; otherwise one table per record in order; every table has its defaults applied |
| RestaurantService.TableRoundTrip | src/services/restaurantService.ts:31-43 | applying the defaults to the record of a normalised table gives it back |
| RestaurantService.ZeroPositionFallsBack | src/services/restaurantService.ts:38 | a `position_x` of 0 falls through to the legacy `x` |
| TableMap.StatusColor | components/TableMap.tsx:22-31 | a selected table gets the selection colour; otherwise green, yellow, red or slate for the four known statuses, and light slate for any other |
| TableMap.ColorsTellApart | components/TableMap.tsx:22-31 | the selection colour differs from every status colour, and no two known statuses share a colour |
| TableMap.Opacity | components/TableMap.tsx:33-36 | full opacity iff available, otherwise 0.6 |
| TableMap.Tap | components/TableMap.tsx:78 | a tap selects the table iff its raw status is exactly "available" |
| TableMap.MissingStatusLooksFree | components/TableMap.tsx:72-78 | a table is tappable only if it is drawn as available; a missing or empty status is drawn as available yet cannot be tapped |
| TableMap.Draw | components/TableMap.tsx:71-125 | a round table is a circle of radius half the width at the cell's centre, any other shape a rectangle at (x+40, y+60) with width and height defaulting to 60; colours, stroke width, opacity and both labels follow selection and status |
| TableMap.LabelsCentred | components/TableMap.tsx:80-125 | for a positive size the labels stand inside the rectangle, and a circle spans the same width as its rectangle with the labels at its centre |
| TableMap.View | components/TableMap.tsx:38-70 | loading shows only the loading notice; otherwise one glyph per table, in order |
| TableMap.OneSelectedGlyph | components/TableMap.tsx:71-72 | with distinct ids at most one table is drawn in the selection colour |
| TableMap.ServiceTablesTapIffDrawnAvailable | components/TableMap.tsx:72-78 | for tables from the service a tap selects exactly those drawn as available |
| EditProfile.BaselineName | app/profile/edit.tsx:39 | the starting name is the user's name, else the full name, else empty |
| EditProfile.BaselinePhone | app/profile/edit.tsx:40 | the starting phone is the user's phone or empty |
| EditProfile.InitialSource | app/profile/edit.tsx:294 | the initial comes from the name, else the e-mail, else "U", and is never empty |
| EditProfile.AvatarInitial | app/profile/edit.tsx:294 | the initial is one character, the upper-cased first character of its source |
| EditProfile.InitialFallback | app/profile/edit.tsx:294 | with neither a name nor an e-mail the initial is "U", and a lower-case first letter is upper-cased |
| EditProfile.ProfileEditor.constructor | app/profile/edit.tsx:39-43 | the fields start from the user and there are no changes |
| EditProfile.ProfileEditor.SetFullName | app/profile/edit.tsx:49-54 | typing a name sets it, keeps the phone, and keeps the change flag equal to the change test |
| EditProfile.ProfileEditor.SetPhone | app/profile/edit.tsx:49-54 | typing a phone sets it, keeps the name, and keeps the change flag equal to the change test |
| EditProfile.ProfileEditor.Save | app/profile/edit.tsx:194-205 | nothing is sent iff both fields equal their starting values; otherwise both are sent trimmed |
| EditProfile.ProfileEditor.Cancel | app/profile/edit.tsx:238-251 | leaving asks for confirmation iff a field differs from its starting value |
| EditProfile.ProfileEditor.SaveAfterRevert | app/profile/edit.tsx:49-54 | typing the fields back to their starting values leaves nothing to save and nothing to confirm, and what is sent is already trimmed |
| EditProfile.LastSegmentOr | app/profile/edit.tsx:147-148 | the file name (after the last '/') and the extension (after the last '.') are never empty, never hold their separator, and are the fallback ("avatar.jpg", "jpg") or the end of their input |
| EditProfile.Mime | app/profile/edit.tsx:154 | the type is "image/png" iff the extension is exactly "png", and "image/jpeg" otherwise |
| EditProfile.UploadUri | app/profile/edit.tsx:152 | on iOS the first "file://" is cut out and nothing else changes; elsewhere the uri is unchanged |
| EditProfile.AvatarPart | app/profile/edit.tsx:151-155 | the upload part carries the upload uri, the file name and the type of its extension |
| EditProfile.PngPhoto | app/profile/edit.tsx:147-154 | a photo at "file://dir/base.png" is uploaded as "base.png" of type PNG, and on iOS as "dir/base.png" |
| EditProfile.DirectoryUri | app/profile/edit.tsx:147-154 | a uri ending in '/' is uploaded as "avatar.jpg" of type JPEG |
| EditProfile.NoDotIsJpeg | app/profile/edit.tsx:148-154 | a file name without '.' other than "png" is uploaded as JPEG |

## Left out

- The booking engine is left out because it runs on the server, which the app only reaches over HTTP. This covers availability, overlap checks, reservation transitions, deposits and refunds, and the HTTP requests themselves. Server answers are parameters.
- Persistence is left out because it is I/O. The model covers only the lists the screens compute. This covers:
  - AsyncStorage;
  - the local fallback of the favourites list when the server fails;
  - the storage write after a toggle;
  - the favourites sync calls;
  - JSON parsing of stored lists.
- KeyedList.DefaultList.Store, KeyedList.DefaultList.Delete: `saveAddresses` (app/profile/addresses.tsx:65-72) and `savePaymentMethods` (app/profile/payment-methods.tsx:59-66) change the screen's list only after the storage write succeeds. Store always replaces the list, because the write is I/O. Delete's promotion `updated[0].isDefault = true` (app/profile/addresses.tsx:146, app/profile/payment-methods.tsx:140) changes an object that the old list shares. When the write then fails, the list still shown can hold two defaults. The model's entries are values, so it has no such sharing.
- The notification list's `response?.data || []` (app/notifications/index.tsx:72) is the server's answer or the empty list. It has no logic of its own and is not modelled.
- JSX rendering, haptics, toasts, alert dialogs and navigation are left out. Only the computed lists, strings and flags are modelled. Confirmation dialogs are modelled as their confirmed branch.
- The clock, fresh ids and the platform are parameters. `Date.now()`, `new Date()`, `Date.now().toString()` and `Platform.OS` cannot be computed.
- The locale's date text (`toLocaleDateString('es-MX')`) is a parameter, because it depends on the locale library.
- Daylight-saving changes are left out. The card's times are milliseconds after local midnight.
- Text.ParseNumber: `Number` also accepts a sign, a decimal point, exponents and hex. Only digit strings with surrounding whitespace are modelled, because clock fields hold nothing else.
- Text.Lower, Text.Upper: only ASCII letters change case. Unicode case mapping is not modelled.
- Text.RemoveSpaces: `\s` and `trim` use a fixed set of whitespace characters. That set is ECMAScript's, including the no-break space and the line terminators.
- `maxLength` on the card, expiry and CVV inputs is left out. It truncates what the keyboard delivers, and that is input handling.
- The address label field is named `kind`, because `label` is reserved in Dafny. An address's optional `reference` is a plain string. `handleEdit` already turns a missing one into `''`.
- `src/types` is not part of this model. The record types are taken from what the screens read.
- HelpCenter.ToggleExpanded: the expanded index is an index into the filtered list. It stays set when the filter changes, so it may then point at another question. This is modelled as the source does it, with no property stated about it.
- TableMap.Tap: before normalisation, a table whose status is empty is drawn as available but cannot be tapped. The source behaves this way. The tables the service delivers always have a status, so this does not arise there (`TableMap.ServiceTablesTapIffDrawnAvailable`).
- Concrete checks of the literal FAQ list beyond HelpCenter.EveryQuestionHasAChip, such as the size of each category, are left out. Their proofs over the long literal texts are too costly for the solver. The filter's properties are proved over every item list instead.
- The rest of `handleSave` in the profile editor and of `saveAvatar` is I/O and is left out: the server's reply, updating the user context, and the local avatar cache.

## Findings

| source | as written | input that shows it | evidently intended | confidence | as-written member | corrected member |
|---|---|---|---|---|---|---|
| components/RestaurantCard.tsx:41-50 | the opening instant is always today, and a closing time earlier than the opening time is moved to tomorrow, so only today's evening window is tested | hours 19:00 to 02:00, a Monday at 00:30: the card shows closed, "Abre 19:00" | also test the window of yesterday's own hours, which opened yesterday and closes this morning, showing open, "Cierra 02:00" (the comment at line 44 names late-night closing) | not executed | RestaurantCard.TodayStatusAsWritten, RestaurantCard.OvernightAfterMidnight | RestaurantCard.TodayStatus, RestaurantCard.WindowsOnClock, RestaurantCard.CarryFromYesterday |
