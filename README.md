# Campsite booking core, modelled in Dafny

This project models the booking core of a Symfony campsite application. A client or an
administrator asks to book a rental (a mobile home, a pitch, …) for a date range, and:

- the booking controllers run a chain of admission checks (the client's and the admin's differ);
- an admitted stay is priced season by season;
- the reservation is quoted, stored or deleted.

Around that core the model covers:

- the two season queries;
- the `Rental` aggregate with its collections and back-references;
- the two `getAllInfos` loops that fold a flat join result into one entry per id;
- the active-item filters of the public pages;
- the two Twig helpers of the navigation bar.

Modules follow the source files:

| module | models |
|---|---|
| `Dates` | instants in seconds, `setTime(0, 0, 0)` as `Midnight`, `diff()->days` as `DiffDays` |
| `SeasonRepository` | `findSeasonsBetweenDates`, `findSeasonsClosed` over the season table as a sequence |
| `Booking` | requests, verdicts, responses, the endpoint range test shared by both controllers |
| `Pricing` | the per-season clipped sum both price computations use |
| `Entity` | the `Rental` aggregate (a class with in-place setters and collections), `Reservation`, `Availability`, `Equipment` |
| `EntityManager` | the persisted reservations, as a store that `persist` and `remove` change |
| `ReservationClientController` | client `new`, `calculateTotalPrice`, `show`, `delete` |
| `ReservationController` | admin `new`, `calculateTotalPrice`, `delete` |
| `Grouping`, `RentalRepository`, `TypeRepository` | the grouping fold of the two `getAllInfos` |
| `HomeController` | the three active-item loops |
| `NavExtensionRuntime` | `numberFormat` and `badgeUser` |

The database columns are date-times and the client form submits date-times, so dates are
integer instants in seconds. Calendar days are `DayOf(t) = t / 86400`, and `setTime(0, 0, 0)` is
`Midnight(t)`. The time of day matters in four places:

- the client's closed-season test runs on the dates as submitted, before they are set to midnight;
- every admin check compares raw instants;
- the admin price computation sets the reservation's own dates to midnight as a side effect;
- the client `show` page's cancel window compares the stored start with the current instant,
  neither set to midnight.

The checks and the price follow the code, with the exceptions listed under "Left out". Three
of those exceptions are: admin `new` runs the corrected blocked-range step of "Findings"; the
season shares are added exactly rather than as floats; and `setTime` is not written back to
stored reservations, seasons and blocked ranges. The model keeps the places where the two
controllers differ from each other or from the season query:

- The checks run in each controller's own order. The admin order is not the client order.
- The client's closed-season test matches only equal endpoints. The admin's test needs the stay
  to lie wholly inside the season.
- Blocked ranges and reservations are tested by endpoint containment. A stay that strictly
  encloses an existing one passes, unlike the two-sided overlap test the season query makes
  (www/src/Repository/SeasonRepository.php:31-32).
- The rental's reservations count whatever their status, refused ones included.
- PHP adds the season shares as floats and the `int` return type truncates the sum once. The
  shares are not rounded one by one.

## Model

| member | source | states |
|---|---|---|
| Dates.Midnight | www/src/Controller/ReservationClientController.php:96-99 | midnight of an instant is the start of its own calendar day: at or before it, less than a day before, same day number |
| Dates.DiffDays | www/src/Controller/ReservationClientController.php:206 | `diff()->days` is the number of whole days in the absolute time between two instants |
| Dates.DiffDaysOfMidnights | www/src/Controller/ReservationClientController.php:262-266 | between two midnights the day count is the difference of the calendar days |
| Dates.MidnightIdempotent | www/src/Controller/ReservationController.php:232-233 | setting a date to midnight twice is setting it once |
| Dates.MidnightOrder | www/src/Controller/ReservationClientController.php:100-106 | comparing midnights is comparing calendar days |
| SeasonRepository.SeasonsBetweenDates | www/src/Repository/SeasonRepository.php:29-39 | a season is returned iff it is in the table with start ≤ the stay's end and end ≥ the stay's start; the result is a subsequence of the table |
| SeasonRepository.SeasonsBetweenDatesMultiplicity | www/src/Repository/SeasonRepository.php:29-39 | an overlapping season is returned as many times as the table holds it, a non-overlapping one never |
| SeasonRepository.SeasonsClosed | www/src/Repository/SeasonRepository.php:52-59 | a season is returned iff it is in the table with its closed flag set, as many times as the table holds it; the result is a subsequence of the table |
| SeasonRepository.ClipNonEmpty | www/src/Repository/SeasonRepository.php:31-32 | a returned season clips a well-ordered stay to a non-empty range, so its day count is at least 1 |
| SeasonRepository.WideningKeepsSeasons | www/src/Repository/SeasonRepository.php:31-32 | widening the stay never drops a season and keeps table order |
| Booking.Normalised | www/src/Controller/ReservationClientController.php:130-131 | a range set to midnight keeps its calendar days and never moves later |
| Booking.EndpointInside | www/src/Controller/ReservationClientController.php:130-131 | the controllers' range test: for a well-ordered stay, a range it catches is a range the stay overlaps |
| Booking.ExceedsBeddingMonotone | www/src/Controller/ReservationClientController.php:122 | the capacity test is monotone: a larger party exceeds wherever a smaller non-empty one does |
| Booking.EndpointInsideVersusOverlap | www/src/Controller/ReservationClientController.php:141-142 | for well-ordered ranges, overlap is exactly the endpoint test or strict enclosure of the range |
| Booking.EnclosingStayPasses | www/src/Controller/ReservationClientController.php:141-142 | a stay strictly enclosing every range passes the endpoint test although it overlaps them all |
| Booking.EndpointRejectionOverlaps | www/src/Controller/ReservationClientController.php:130-131 | an endpoint rejection names a range the stay overlaps |
| Seqs.Filter | www/src/Controller/HomeController.php:31-35 | the kept elements are exactly the input elements satisfying the test, never more than the input |
| Seqs.FilterIsSubsequence | www/src/Controller/HomeController.php:31-35 | a filter keeps input order |
| Seqs.FirstIndex | www/src/Controller/ReservationClientController.php:88-93 | the early-return loop stops at the first match; all earlier elements fail the test |
| Seqs.RemoveFirst | www/src/Entity/Rental.php:159 | `removeElement` removes one occurrence: the multiset loses exactly that element, an absent element changes nothing |
| Seqs.RemoveFirstNoDuplicates | www/src/Entity/Rental.php:157-167 | removing from a duplicate-free collection leaves it duplicate-free and without the element |
| Entity.Rental.constructor | www/src/Entity/Rental.php:55-60 | a new rental has empty reservations, equipments and availabilities and no field set |
| Entity.Rental.SetTitle | www/src/Entity/Rental.php:72-77 | sets only the title and returns the rental itself |
| Entity.Rental.SetDescription | www/src/Entity/Rental.php:84-89 | sets only the description and returns the rental itself |
| Entity.Rental.SetBedding | www/src/Entity/Rental.php:96-101 | sets only the bedding and returns the rental itself |
| Entity.Rental.SetSurface | www/src/Entity/Rental.php:108-113 | sets only the surface and returns the rental itself |
| Entity.Rental.SetLocation | www/src/Entity/Rental.php:120-125 | sets only the location and returns the rental itself |
| Entity.Rental.SetType | www/src/Entity/Rental.php:132-137 | sets only the type (null allowed) and returns the rental itself |
| Entity.Rental.AddReservation | www/src/Entity/Rental.php:147-155 | an absent reservation is appended and pointed at this rental; a present one changes nothing; no duplicates |
| Entity.Rental.RemoveReservation | www/src/Entity/Rental.php:157-167 | the reservation leaves the collection; its rental is cleared only if it was present and still pointed here |
| Entity.Rental.AddEquipment | www/src/Entity/Rental.php:177-184 | an absent equipment is appended, the collection stays duplicate-free, no back-reference is set |
| Entity.Rental.RemoveEquipment | www/src/Entity/Rental.php:186-191 | the equipment leaves the collection and nothing else changes |
| Entity.Rental.AddAvailability | www/src/Entity/Rental.php:201-209 | as for reservations: appended once and pointed at this rental |
| Entity.Rental.RemoveAvailability | www/src/Entity/Rental.php:211-221 | as for reservations: removed, back-reference cleared only if it pointed here |
| Entity.AddReservationIdempotent | www/src/Entity/Rental.php:147-155 | adding the same reservation twice leaves the collection as adding it once |
| Entity.ReservationRanges | www/src/Controller/ReservationClientController.php:139-142 | one date range per reservation of the rental, whatever its status, in collection order |
| EntityManager.Store.Persist | www/src/Controller/ReservationClientController.php:175-176 | persisting appends a reservation not yet stored and keeps the store duplicate-free |
| EntityManager.Store.Remove | www/src/Controller/ReservationController.php:207-208 | removing takes the reservation out of the store |
| Pricing.TruncHundredth | www/src/Controller/ReservationClientController.php:242 | the `int` return truncates the hundredths sum toward zero, bounds stated for both signs |
| Pricing.ClipDays | www/src/Controller/ReservationClientController.php:262-266 | a stay lying inside the season bills every one of its days; the general count of shared days is `Pricing.ClipDaysCountsSharedDays` |
| Pricing.SeasonalSum | www/src/Controller/ReservationClientController.php:259-270 | the reference sum of clipped days × percentage × daily price over the found seasons; its additivity is `Pricing.SeasonalSumAppend`, and the loops are tied to it by `AccumulateSeasons` and `SeasonalSumStep` |
| Pricing.SeasonalSumStep | www/src/Controller/ReservationClientController.php:269 | each loop turn adds one season's share to the running total |
| Pricing.ClipDaysCountsSharedDays | www/src/Controller/ReservationClientController.php:262-266 | the clipped day count is the number of calendar days the stay and the season share, and at least 1 |
| Pricing.SeasonalSumNonNegative | www/src/Controller/ReservationClientController.php:259-270 | non-negative percentages and base price give a non-negative sum |
| Pricing.SeasonalSumAppend | www/src/Controller/ReservationClientController.php:259-270 | seasons contribute independently: the sum over two lists is the sum of the sums |
| ReservationClientController.CalculateTotalPrice | www/src/Controller/ReservationClientController.php:242-275 | the reservation's dates end at midnight and the result is the price of the submitted stay at the daily price of the reservation's rental's type |
| ReservationClientController.AccumulateSeasons | www/src/Controller/ReservationClientController.php:259-271 | the loop's total is the clipped seasonal sum |
| ReservationClientController.ClosedSeasonHit | www/src/Controller/ReservationClientController.php:89 | the client's closed test holds iff the requested start equals the season's start or the requested end equals its end |
| ReservationClientController.Admission | www/src/Controller/ReservationClientController.php:88-146 | a closed-season refusal names a closed season of the table whose start or end the request matches; an admitted request starts today or later, ends on a later calendar day, has at least one adult, no negative kids, and fits the bedding |
| ReservationClientController.Price | www/src/Controller/ReservationClientController.php:242-275 | with no overlapping season the price is the number of calendar days of the stay, both ends included, times the daily price |
| ReservationClientController.IsCancelable | www/src/Controller/ReservationClientController.php:206 | cancelable iff the start and now are at least two whole days (172800 s) apart, in either direction |
| ReservationClientController.New | www/src/Controller/ReservationClientController.php:88-181 | the verdict on the submitted request decides; dates go to midnight unless a closed season refuses; a refusal changes nothing else; an admission confirms, links and prices the reservation and quotes, stores or shows it again |
| ReservationClientController.Accept | www/src/Controller/ReservationClientController.php:148-180 | an admitted reservation gets the rental, its type, status Confirmed (1) and the computed price; "calculate" stores nothing, "confirm" on a valid form stores it once |
| ReservationClientController.Delete | www/src/Controller/ReservationClientController.php:227-230 | with a valid token only the status changes, to Refused (0) |
| ReservationClientController.ClosedRejectionIsEndpointEquality | www/src/Controller/ReservationClientController.php:88-93 | the closed-season refusal happens iff some closed season starts at the requested start or ends at the requested end |
| ReservationClientController.ClientCheckOrder | www/src/Controller/ReservationClientController.php:88-146 | each outcome holds iff every earlier check passes and its own fails: closed, past, end ≤ start, occupancy, capacity, blocked, reserved |
| ReservationClientController.NoBeddingRefusesEveryParty | www/src/Controller/ReservationClientController.php:119-125 | on a rental with no bedding set, every request that passes the closed-season, date and occupancy checks is refused for capacity |
| ReservationClientController.PartyWithinBeddingFits | www/src/Controller/ReservationClientController.php:119-125 | a party no larger than the rental's bedding is never refused for capacity |
| ReservationClientController.SameDayStayRejected | www/src/Controller/ReservationClientController.php:96-109 | a stay ending on its start day is refused by the end check |
| ReservationClientController.RangeRejectionOverlaps | www/src/Controller/ReservationClientController.php:128-146 | a refusal for blocked or reserved dates names a range the stay overlaps |
| ReservationClientController.SameDatesAsExistingRejected | www/src/Controller/ReservationClientController.php:139-146 | a request with exactly an existing reservation's dates is refused, whatever that reservation's status |
| ReservationClientController.EnclosingStayAdmitted | www/src/Controller/ReservationClientController.php:140-146 | a stay of days 9-13 is admitted beside a reservation of days 10-12 it overlaps |
| ReservationClientController.AdjacentStayNotReserved | www/src/Controller/ReservationClientController.php:140-146 | a stay starting after an existing one's last day is not refused by it |
| ReservationClientController.PriceNonNegative | www/src/Controller/ReservationClientController.php:242-275 | non-negative inputs give a non-negative price |
| ReservationClientController.PriceOneCoveringSeason | www/src/Controller/ReservationClientController.php:259-270 | inside one season every day costs the season's percentage of the daily price |
| ReservationClientController.PriceOneOverlappingSeason | www/src/Controller/ReservationClientController.php:259-270 | with one overlapping season only the shared days are charged |
| ReservationClientController.PriceTenDaysHighSeason | www/src/Controller/ReservationClientController.php:259-270 | ten days at 120% of 1000 cost 12000 |
| ReservationClientController.PriceThirtyDaysNoSeason | www/src/Controller/ReservationClientController.php:253-256 | 1 to 30 April 2025 without a season at 1000 a day costs 30000 |
| ReservationClientController.GapDaysAreFree | www/src/Controller/ReservationClientController.php:259-270 | a ten-day stay overlapping a five-day 100% season costs five days: the uncovered days are free |
| ReservationClientController.PriceTwoSeasons | www/src/Controller/ReservationClientController.php:259-270 | five days at 80% and five at 120% of 1000 cost 10000 |
| ReservationClientController.CancelableEitherSide | www/src/Controller/ReservationClientController.php:206 | the window has no direction: swapping start and now never changes the answer, and a start two days ahead or two days back are both cancelable |
| ReservationClientController.StartedStayCancelable | www/src/Controller/ReservationClientController.php:206 | a stay that began three days ago still shows as cancelable, since the day distance has no sign |
| ReservationController.BlockedStepAsWritten | www/src/Controller/ReservationController.php:72-80 | as written the step fails with an error iff the rental has a blocked range, and where it does not fail it agrees with the intended step |
| ReservationController.BlockedStep | www/src/Controller/ReservationController.php:72-80 | the intended step is the client's endpoint test on the unnormalised dates; for a well-ordered stay a refusal names a blocked range the stay overlaps, and a stay disjoint from every blocked range passes |
| ReservationController.FirstClosedContaining | www/src/Controller/ReservationController.php:83-88 | the loop finds a closed season iff some closed season contains the whole stay |
| ReservationController.ClosedSeasonContains | www/src/Controller/ReservationController.php:84 | a well-ordered stay the admin's closed test catches overlaps the season, and the season is then well-ordered |
| ReservationController.Admission | www/src/Controller/ReservationController.php:72-120 | a closed-season refusal names a closed season of the table that contains the stay; an admitted request starts at or after now, does not end before it starts and fits the bedding; occupancy is never refused |
| ReservationController.AdmissionAsWritten | www/src/Controller/ReservationController.php:72-80 | as written the checks fail with an error iff the rental has a blocked range, and otherwise decide exactly as the intended checks |
| ReservationController.Price | www/src/Controller/ReservationController.php:220-243 | a stay no season overlaps (looked up on the raw dates) costs 0 |
| ReservationController.CalculateTotalPrice | www/src/Controller/ReservationController.php:220-243 | the total is the admin price of the submitted dates at the daily price of the reservation's rental's type, read only when some season is found (0 otherwise); the reservation's dates are at midnight afterwards iff some season was found |
| ReservationController.New | www/src/Controller/ReservationController.php:59-143 | no rental is an error with nothing changed; a refusal changes nothing; an admitted stay with a season found but no type on the rental is an error with nothing changed; otherwise the reservation gets the price at its rental type's daily price (0 when no season is found), status untouched, and is quoted, stored or shown again |
| ReservationController.Delete | www/src/Controller/ReservationController.php:206-209 | with a valid token the reservation leaves the store; status untouched |
| ReservationController.ClosedRejectionIsContainment | www/src/Controller/ReservationController.php:83-88 | the closed refusal happens iff the blocked step passes and some closed season contains the whole stay |
| ReservationController.AdminCheckOrder | www/src/Controller/ReservationController.php:72-120 | each outcome holds iff every earlier check passes and its own fails: blocked, closed, past, end < start, capacity, reserved; no occupancy-sign refusal |
| ReservationController.NoBeddingRefusesNonEmptyParty | www/src/Controller/ReservationController.php:106-110 | on a rental with no bedding set, a request that passes the earlier admin checks is refused for capacity iff its party is not empty |
| ReservationController.RangeRejectionOverlaps | www/src/Controller/ReservationController.php:113-120 | a refusal for blocked or reserved dates names a range the stay overlaps |
| ReservationController.AdminAcceptsWhatClientRefuses | www/src/Controller/ReservationController.php:96-110 | a stay ending at its start instant, and an occupancy with no adult or negative kids, pass the admin checks but not the client checks |
| ReservationController.PastTestIsInstantComparison | www/src/Controller/ReservationController.php:91-94 | on today's date, a start earlier than now is refused and a later one passes |
| ReservationController.ClosedTestsVersusOverlap | www/src/Controller/ReservationController.php:84 | the client's equality test implies overlap; a stay overlapping a closed season without touching its bounds passes both closed tests |
| ReservationController.PriceNonNegative | www/src/Controller/ReservationController.php:220-243 | non-negative inputs give a non-negative price |
| ReservationController.PriceAgreesWithClient | www/src/Controller/ReservationController.php:229-240 | for midnight dates with some overlapping season both controllers charge the same |
| ReservationController.BlockedRangeElsewhereBreaksAdmin | www/src/Controller/ReservationController.php:74-75 | a blocked range weeks before the stay breaks the handler as written; the intended check admits the stay |
| Grouping.FirstIds | www/src/Repository/RentalRepository.php:51-53 | the distinct ids of the rows, without duplicates, exactly those present |
| Grouping.ItemsOf | www/src/Repository/RentalRepository.php:68-70 | an id that no row carries has no items |
| Grouping.HeaderOf | www/src/Repository/RentalRepository.php:52-64 | a header exists iff some row carries the id |
| Grouping.GroupById | www/src/Repository/RentalRepository.php:48-78 | one entry per distinct id in first-appearance order, header from the first row, items from every row of that id in row order, as many items as rows |
| Grouping.HeaderIsFirstRows | www/src/Repository/TypeRepository.php:62-69 | an entry's header is that of the first row carrying its id |
| Grouping.EntriesInFirstAppearanceOrder | www/src/Repository/TypeRepository.php:83 | an earlier entry's id first appears earlier in the rows |
| Grouping.ItemsCountRows | www/src/Repository/TypeRepository.php:72 | the item counts over the distinct ids add up to the number of rows |
| RentalRepository.GetAllInfos | www/src/Repository/RentalRepository.php:48-78 | distinct entries exactly for the rental ids present, columns from the rental's first row, equipments of all its rows in order, first-appearance order, one equipment per row |
| TypeRepository.GetAllInfos | www/src/Repository/TypeRepository.php:59-83 | entries for the distinct type ids in first-appearance order, label and image from the first row, prices of all its rows in order, one price per row |
| HomeController.KeepMatching | www/src/Controller/HomeController.php:98-103 | the foreach keeps exactly the items passing the test, in order, never more than the input |
| HomeController.Index | www/src/Controller/HomeController.php:30-35 | the result is the order-keeping filter of the types by their active flag, copies included: exactly the active types, in input order |
| HomeController.DetailType | www/src/Controller/HomeController.php:64-69 | the result is the order-keeping filter of the rentals by their active flag, copies included: exactly the active rentals, in input order |
| HomeController.ActiveEquipments | www/src/Controller/HomeController.php:98-103 | the result is the order-keeping filter of the rows by `isActive == 1`, copies included: exactly those rows, in input order |
| HomeController.EquipmentsForRental | www/src/Repository/EquipmentRepository.php:30-39 | one row per equipment label, none with an `isActive` key |
| HomeController.NoEquipmentIsKept | www/src/Repository/EquipmentRepository.php:31 | rows without the key fail the test, so nothing is kept |
| HomeController.DetailRental | www/src/Controller/HomeController.php:95-103 | the equipment list shown is always empty |
| NavExtensionRuntime.NumberFormat | www/src/Twig/Runtime/NavExtensionRuntime.php:17-24 | "Gratuit" iff the number is 0; otherwise the formatter's output followed by '€', with the arguments in the order written |
| NavExtensionRuntime.BadgeUser | www/src/Twig/Runtime/NavExtensionRuntime.php:31-41 | the Admin badge iff the first role is ROLE_ADMIN, the Client badge iff it is ROLE_USER, the Inconnu badge otherwise or without roles |
| NavExtensionRuntime.OnlyFirstRoleMatters | www/src/Twig/Runtime/NavExtensionRuntime.php:33 | roles after the first never change the badge, which is one of three strings |

## Left out

- The `dd()` call at www/src/Controller/ReservationClientController.php:86 halts every submitted client booking. The model describes the checks after it, as if it were absent.
- The client flow takes the rental as found. `find` returning null and `getId()` on null are not modelled.
- `getTypeForRental` is not defined in www/src/Repository/TypeRepository.php. The type it would return is an input of the client `new`. The client's `calculateTotalPrice` then reads the daily price from the rental that type was set on.
- On the admin path, a season found for a rental without a type ends the request with an error (`Fault`). The model leaves the reservation's dates as they were, though PHP has already set them to midnight when the error occurs. The error also ends the request, so nothing is flushed.
- `setTime` changes the stored reservations, seasons and blocked ranges in place. The model uses their midnight values in the comparisons but does not write them back. Only the requested reservation's own dates are updated.
- Floating point: each season's share is a PHP float. The model adds the exact shares in hundredths and truncates once.
- `number_format` is library code. It is a function parameter of `NumberFormat`.
- `numberFormat` is modelled on integers only. PHP's loose `!=` on floats and numeric strings is not modelled.
- When the form is not submitted, both `new` actions only render the form and change nothing (www/src/Controller/ReservationClientController.php:67,183-187; www/src/Controller/ReservationController.php:59,145-148). The model covers the submitted branch only.
- The current time is a parameter (`now`), and so are the form's validity and the clicked button.
- CSRF token checking is a parameter. Flash messages, redirects and rendering are not modelled. The client `delete` shows its success message even when the token is invalid.
- Concurrency: the check-then-persist race between two requests is not modelled. The code has no locking.
- Doctrine persistence is not modelled beyond the store of reservations: flush, identity maps, cascades and the inner join that drops rentals without equipment.
- The Reservation, Type, Equipment and Availability entity sources are not part of this model. Their getters and setters are plain fields.
- Rental `isActive`/`isClean` are not in `Rental.php`. The home page filters take active flags as inputs.
- Reading the missing `isActive` key of an equipment row raises a PHP warning, which a debug-mode error handler may turn into an exception. The model takes the production reading: the key reads as null.
- `badgeUser` on an empty role list reads an undefined key in the same way. The model takes it as null, which gives the Inconnu badge.
- The `by-reference` `array_values` loops in both `getAllInfos` are not modelled as separate steps. The entries' lists are index-keyed sequences already, on which `array_values` is the identity.
- `getAllInfosById` ends in `dd()` and is not modelled.
- Date time zones and daylight saving are not modelled. A day is 86400 seconds.
- ReservationController.New: models the corrected blocked-range step. The as-written fatal error is `AdmissionAsWritten` (see Findings).

## Findings

| source | as written | input that shows it | evidently intended | confidence | as-written member | corrected member |
|---|---|---|---|---|---|---|
| www/src/Controller/ReservationController.php:74-75 | `$availability->getDateStart()` on the rows of `findAvailabilitiesByRental`, which selects scalar columns (www/src/Repository/AvailabilityRepository.php:56-60) and so returns arrays: calling a method on an array is a fatal error | any rental with one blocked range, e.g. days 1-3, and a request for days 40-45: the admin cannot book it at all | read `$availability['dateStart']` and `['dateEnd']`, as the client flow does at www/src/Controller/ReservationClientController.php:130-131, and refuse only stays with an endpoint inside a blocked range | high, not executed | ReservationController.BlockedStepAsWritten, ReservationController.AdmissionAsWritten, ReservationController.BlockedRangeElsewhereBreaksAdmin | ReservationController.BlockedStep, ReservationController.Admission |
