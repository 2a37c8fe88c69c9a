# ShareIt core, modelled in Dafny

ShareIt is a service for lending things. Users list items. Other users book
an item for a time interval, and the owner approves or rejects the booking.
A user with no matching item posts a request, and other users offer items
for it. Once a booking is over, the booker may comment on the item.

This project models the core of that service. It covers two generations of
the code: the earlier single-module application under `src/` and the later
`server/` module.

- **Bookings** (`BookingEngine`, `BookingQueries`, `ServerBookingQueries`,
  `BookingMapper`, `RequestStates`):
  - a booking is created only when its dates differ, the booker and the
    item exist, the item is available, and no approved booking of the item
    overlaps the interval;
  - only the owner approves or rejects, and an approval is refused while
    an overlapping approved booking exists;
  - listings for a booker or an owner use a state filter: ALL, CURRENT,
    PAST, FUTURE, WAITING or REJECTED, with the state parsed
    case-insensitively;
  - listings are sorted by start, latest first;
  - the last-and-next booking dates of an item are computed.
- **Users** (`InMemoryUsers`, `UserAccounts`, `UserMapper`, `Users`):
  - an in-memory user map with an id counter;
  - a service that refuses duplicate emails and applies partial updates.
- **Items** (`InMemoryItems`, `ItemCatalog`, `ServerItemCatalog`,
  `ItemMapper`, `ServerItemMapper`, `Items`):
  - an in-memory item map;
  - services that create, update, look up and delete items with owner
    checks;
  - text search over available items;
  - comments by past bookers;
  - views of items with booking dates and comments.
- **Item requests** (`ItemRequests`, `ItemRequestMapper`, `Requests`):
  - creating a request;
  - listing a user's own requests with the items offered for each;
  - listing the requests of other users;
  - looking up one request with its items.

Storage is modelled in two ways:

- **In-memory maps and the service state.** These are Dafny classes whose
  methods update their fields.
- **Database tables.** These are sequences in row order. A JPQL query is a
  function over the table.

The clock is the parameter `now`. Identity columns are counters.

## Model

| member | source | states |
|---|---|---|
| RequestStates.FirstMatching | gateway/src/main/java/ru/practicum/shareit/booking/model/BookingRequestState.java:19-21 | the state found matches the text ignoring case; when none is found, no state matches |
| RequestStates.FromIffEqualsIgnoreCase | gateway/src/main/java/ru/practicum/shareit/booking/model/BookingRequestState.java:15-23 | `from` returns a state exactly when its name equals the text ignoring case; it returns null exactly when no name matches, and for null input |
| RequestStates.MatchIsUnique | gateway/src/main/java/ru/practicum/shareit/booking/model/BookingRequestState.java:8-13 | no two states match the same text ignoring case, so the answer of `from` does not depend on declaration order |
| RequestStates.FromName | gateway/src/main/java/ru/practicum/shareit/booking/model/BookingRequestState.java:15-23 | every state is parsed back from its own name and from its lower-case name |
| RequestStates.NamesAreUpperWords | gateway/src/main/java/ru/practicum/shareit/booking/model/BookingRequestState.java:8-13 | every state name is a non-empty word of upper-case ASCII letters |
| RequestStates.IndexOf | gateway/src/main/java/ru/practicum/shareit/booking/model/BookingRequestState.java:8-13 | every state occurs in the values array that `from` scans |
| BookingMapper.StatusOrWaiting | server/src/main/java/ru/practicum/shareit/booking/dto/BookingMapper.java:16 | a missing status becomes WAITING; a given status is kept |
| BookingMapper.MapCreateToBooking | server/src/main/java/ru/practicum/shareit/booking/dto/BookingMapper.java:14-22 | the booking takes the dates and id of the request, the item and its owner, the booker, and the status or WAITING |
| BookingMapper.MapToDto | server/src/main/java/ru/practicum/shareit/booking/dto/BookingMapper.java:24-29 | the DTO carries every field of the booking |
| BookingMapper.MapToDtos | server/src/main/java/ru/practicum/shareit/booking/dto/BookingMapper.java:31-35 | the list maps each booking in order |
| BookingMapper.DtoRoundTrip | server/src/main/java/ru/practicum/shareit/booking/dto/BookingMapper.java:24-29 | booking to DTO and back is the identity, in both directions |
| BookingMapper.CreateRoundTrip | server/src/main/java/ru/practicum/shareit/booking/dto/BookingMapper.java:14-22 | a booking written as a create request and mapped back with its item and booker is the same booking |
| BookingMapper.NullStatusIsWaiting | server/src/main/java/ru/practicum/shareit/booking/dto/BookingMapper.java:16 | a create request without a status yields a WAITING booking |
| BookingMapper.DtosRoundTrip | server/src/main/java/ru/practicum/shareit/booking/dto/BookingMapper.java:31-35 | mapping a list to DTOs and back restores the list |
| BookingQueries.Select | src/main/java/ru/practicum/shareit/booking/BookingStorageDb.java:17-51 | a query result is sorted by start, latest first, and is a permutation of the matching rows; the server repository runs the same query (server/src/main/java/ru/practicum/shareit/booking/BookingStorageDb.java:17-68) |
| BookingQueries.SelectExact | src/main/java/ru/practicum/shareit/booking/BookingStorageDb.java:17-51 | a booking is in the result exactly when it is a row that matches the condition; the server repository runs the same query (server/src/main/java/ru/practicum/shareit/booking/BookingStorageDb.java:17-68) |
| BookingQueries.AllOf | src/main/java/ru/practicum/shareit/booking/BookingStorageDb.java:43-48 | ALL: exactly the user's bookings (as booker, or as owner of the item), latest start first; the server repository runs the same query (server/src/main/java/ru/practicum/shareit/booking/BookingStorageDb.java:60-65) |
| BookingQueries.CurrentOf | src/main/java/ru/practicum/shareit/booking/BookingStorageDb.java:45-51 | CURRENT: exactly the user's bookings with start <= now < end, latest start first; the server repository runs the same query (server/src/main/java/ru/practicum/shareit/booking/BookingStorageDb.java:62-68) |
| BookingQueries.PastOf | src/main/java/ru/practicum/shareit/booking/BookingStorageDb.java:17-26 | PAST: exactly the user's bookings that ended before now, latest start first; the server repository runs the same query (server/src/main/java/ru/practicum/shareit/booking/BookingStorageDb.java:17-26) |
| BookingQueries.FutureOf | src/main/java/ru/practicum/shareit/booking/BookingStorageDb.java:20-29 | FUTURE: exactly the user's bookings that start after now, latest start first; the server repository runs the same query (server/src/main/java/ru/practicum/shareit/booking/BookingStorageDb.java:20-29) |
| BookingQueries.WithStatusOf | src/main/java/ru/practicum/shareit/booking/BookingStorageDb.java:23-32 | WAITING or REJECTED: exactly the user's bookings with that status, latest start first; the server repository runs the same query (server/src/main/java/ru/practicum/shareit/booking/BookingStorageDb.java:23-32) |
| BookingQueries.OverlappingBookings | src/main/java/ru/practicum/shareit/booking/BookingStorageDb.java:37-41 | exactly the approved bookings of the item whose closed interval meets the given one; the server repository runs the same query (server/src/main/java/ru/practicum/shareit/booking/BookingStorageDb.java:54-58) |
| BookingQueries.FinishedBookingsOf | src/main/java/ru/practicum/shareit/booking/BookingStorageDb.java:35 | exactly the booker's bookings of the item with the status that ended before the given time; the server repository runs the same query (server/src/main/java/ru/practicum/shareit/booking/BookingStorageDb.java:39-52), which also inner-joins the item's owner, a join every owned item passes |
| BookingQueries.BookingDatesOf | src/main/java/ru/practicum/shareit/booking/BookingStorageDb.java:53-57 | a row, when there is one, is about the asked item |
| BookingQueries.PastEndsExact | src/main/java/ru/practicum/shareit/booking/BookingStorageDb.java:53-57 | the ends collected are exactly those of the approved bookings of the item that ended at or before now |
| BookingQueries.FutureStartsExact | src/main/java/ru/practicum/shareit/booking/BookingStorageDb.java:53-57 | the starts collected are exactly those of the approved bookings of the item that start at or after now |
| BookingQueries.BookingDatesMeaning | src/main/java/ru/practicum/shareit/booking/BookingStorageDb.java:53-57 | the inner-joined row exists exactly when there is both a past end and a future start; `previous` is the latest past end and `next` the earliest future start |
| BookingQueries.OwnerItemIds | src/main/java/ru/practicum/shareit/booking/BookingStorageDb.java:59-63 | the GROUP BY keys: each of the owner's booked items once |
| BookingQueries.RowsOf | src/main/java/ru/practicum/shareit/booking/BookingStorageDb.java:59-63 | one row per key that has one, each about its own key, no key twice |
| BookingQueries.OwnerBookingDates | src/main/java/ru/practicum/shareit/booking/BookingStorageDb.java:59-63 | for an owner: one row per item, each equal to that item's single-item row, and every item of the owner that has a row is listed |
| BookingQueries.OwnerRowsAreBookingDates | src/main/java/ru/practicum/shareit/booking/BookingStorageDb.java:59-63 | grouping the owner's bookings by item and computing each group's row gives each item's single-item row, and misses no item that has one |
| BookingQueries.TemporalFiltersPartition | src/main/java/ru/practicum/shareit/booking/BookingStorageDb.java:17-51 | for a well-formed interval, PAST, CURRENT and FUTURE are disjoint, and a booking ending exactly now is in none of them |
| BookingQueries.InvertedIntervalIsPastAndFuture | src/main/java/ru/practicum/shareit/booking/BookingStorageDb.java:17-29 | an inverted interval (start after end) can be PAST and FUTURE at once |
| BookingQueries.TouchingIntervalsOverlap | src/main/java/ru/practicum/shareit/booking/BookingStorageDb.java:37-41 | the overlap test is closed: an interval starting at an approved booking's end conflicts with it |
| BookingQueries.OverlapSymmetric | src/main/java/ru/practicum/shareit/booking/BookingStorageDb.java:37-41 | overlap is symmetric in the two intervals |
| ServerBookingQueries.MaxOrNull | server/src/main/java/ru/practicum/shareit/booking/BookingStorageDb.java:70-76 | SQL MAX: null over no rows, else the largest value |
| ServerBookingQueries.MinOrNull | server/src/main/java/ru/practicum/shareit/booking/BookingStorageDb.java:70-76 | SQL MIN: null over no rows, else the smallest value |
| ServerBookingQueries.ItemBookingDatesAsWritten | server/src/main/java/ru/practicum/shareit/booking/BookingStorageDb.java:70-76 | the left-joined query returns a row exactly when the item has any booking, and the row is about that item |
| ServerBookingQueries.ItemBookingDates | server/src/main/java/ru/practicum/shareit/booking/BookingStorageDb.java:78-86 | the corrected single-item row exists exactly when the item has a booking, and is about that item |
| ServerBookingQueries.OwnerBookingDatesRows | server/src/main/java/ru/practicum/shareit/booking/BookingStorageDb.java:78-86 | one row per item of the owner that has bookings, each the item's last-end/first-start row, no item twice |
| ServerBookingQueries.OwnerRowsAreDatesRows | server/src/main/java/ru/practicum/shareit/booking/BookingStorageDb.java:78-86 | the rows computed per grouped item are each that item's last-end/first-start row, and every item of the owner with a booking has its row |
| ServerBookingQueries.DatesRowMeaning | server/src/main/java/ru/practicum/shareit/booking/BookingStorageDb.java:78-86 | `previous` is null exactly when there is no past approved end, else the latest one (<= now); `next` is null exactly when there is no future approved start, else the earliest one (>= now) |
| ServerBookingQueries.ItemBookingDatesOrdered | server/src/main/java/ru/practicum/shareit/booking/BookingStorageDb.java:78-86 | in the corrected row, `previous` is never after now and `next` never before |
| ServerBookingQueries.ItemBookingDatesAsWrittenSwapsFields | server/src/main/java/ru/practicum/shareit/booking/BookingStorageDb.java:70-76 | the query as written puts a future start in `previous` (see Findings) |
| BookingEngine.StrategyMeaning | src/main/java/ru/practicum/shareit/booking/BookingService.java:42-71 | each strategy table covers every state, and the strategy for a state returns exactly the party's bookings in that state, latest start first |
| BookingEngine.AppendKeepsNoOverlap | src/main/java/ru/practicum/shareit/booking/BookingService.java:74-85 | saving a booking that passed the overlap check keeps approved bookings of an item pairwise disjoint |
| BookingEngine.ApproveKeepsNoOverlap | src/main/java/ru/practicum/shareit/booking/BookingService.java:145-151 | approving a booking that passed the overlap check keeps approved bookings pairwise disjoint |
| BookingEngine.UnapproveKeepsNoOverlap | src/main/java/ru/practicum/shareit/booking/BookingService.java:166-174 | setting a status other than APPROVED keeps approved bookings pairwise disjoint |
| BookingEngine.IndexOfId | src/main/java/ru/practicum/shareit/booking/BookingService.java:153-156 | the row with the id, or proof that there is none |
| BookingEngine.CreateCheck | src/main/java/ru/practicum/shareit/booking/BookingService.java:74-85 | equal dates give Validation first, then an unknown booker NotFound; the check passes exactly when the dates differ, booker and item exist, the item is available and no approved booking overlaps |
| BookingEngine.RefusalStatus | src/main/java/ru/practicum/shareit/booking/BookingService.java:166-174 | the owner rejects with REJECTED; a stranger is refused; the booker would cancel |
| BookingEngine.UpdateStatusDecision | src/main/java/ru/practicum/shareit/booking/BookingService.java:88-103 | an unknown booking is NotFound; a success changes only the status of the stored booking (when each call succeeds is stated by UpdateStatusOutcomes) |
| BookingEngine.UpdateStatusOutcomes | src/main/java/ru/practicum/shareit/booking/BookingService.java:88-103 | a non-owner gets Validation, never Permission; for the owner, an approval succeeds with status APPROVED exactly when no approved booking of the item overlaps it and is otherwise Validation, and a refusal always succeeds with status REJECTED; CANCELED is never reached |
| BookingEngine.ReapprovalFails | src/main/java/ru/practicum/shareit/booking/BookingService.java:145-151 | approving an already approved booking is refused, because it overlaps itself |
| BookingEngine.ApprovalMeansNoOverlap | src/main/java/ru/practicum/shareit/booking/BookingService.java:145-151 | the owner's approval succeeds exactly when no approved booking of the same item has an interval meeting the booking's |
| BookingEngine.ListMeaning | src/main/java/ru/practicum/shareit/booking/BookingService.java:115-125 | a listing holds exactly the DTOs of the party's bookings in the state, latest start first |
| BookingEngine.BookingService.constructor | src/main/java/ru/practicum/shareit/booking/BookingService.java:29-38 | no bookings, the counter at 1, strategy tables empty |
| BookingEngine.BookingService.InitStrategiesForBooker | src/main/java/ru/practicum/shareit/booking/BookingService.java:42-55 | fills the booker's strategy table and changes nothing else |
| BookingEngine.BookingService.InitStrategiesForOwner | src/main/java/ru/practicum/shareit/booking/BookingService.java:58-71 | fills the owner's strategy table and changes nothing else |
| BookingEngine.BookingService.Create | src/main/java/ru/practicum/shareit/booking/BookingService.java:74-85 | a refused request changes nothing; otherwise the booking is appended under the next id and returned, and the invariant holds |
| BookingEngine.BookingService.UpdateStatus | src/main/java/ru/practicum/shareit/booking/BookingService.java:88-103 | a refused decision changes nothing; otherwise only that booking is replaced by the decided one, and approved bookings stay disjoint; the owner's approval without an overlap stores APPROVED and the owner's refusal stores REJECTED |
| BookingEngine.BookingService.FindById | src/main/java/ru/practicum/shareit/booking/BookingService.java:105-113 | NotFound exactly when no booking has the id; Permission only for a user who is neither booker nor owner; a result is the stored booking and involves the user |
| BookingEngine.BookingService.ListFor | src/main/java/ru/practicum/shareit/booking/BookingService.java:176-192 | an unknown user is NotFound; a result exists exactly when the user exists and the state is in the strategy table |
| BookingEngine.BookingService.FindAllUsersBookings | src/main/java/ru/practicum/shareit/booking/BookingService.java:115-119 | once initialised: succeeds exactly for a known booker and a given state; the result is exactly the booker's bookings in the state, latest start first |
| BookingEngine.BookingService.FindAllBookingsOfOwner | src/main/java/ru/practicum/shareit/booking/BookingService.java:121-125 | once initialised: succeeds exactly for a known owner and a given state; the result is exactly the bookings of the owner's items in the state, latest start first |
| Users.ApplyUpdate | src/main/java/ru/practicum/shareit/user/UserService.java:60-70 | a non-null field of the update replaces the user's field; a null one keeps it; the id is kept |
| Users.ApplyUpdateIdempotent | src/main/java/ru/practicum/shareit/user/UserService.java:60-70 | applying an update twice equals applying it once; an empty update changes nothing |
| UserMapper.MapToDto | src/main/java/ru/practicum/shareit/user/dto/UserMapper.java:11-13 | the DTO carries id, email and name |
| UserMapper.MapToUser | src/main/java/ru/practicum/shareit/user/dto/UserMapper.java:21-23 | the user carries id, email and name |
| UserMapper.MapToDtos | src/main/java/ru/practicum/shareit/user/dto/UserMapper.java:15-19 | the list maps each user in order |
| UserMapper.MapToUsers | src/main/java/ru/practicum/shareit/user/dto/UserMapper.java:25-29 | the list maps each DTO in order |
| UserMapper.RoundTrip | src/main/java/ru/practicum/shareit/user/dto/UserMapper.java:11-23 | user and DTO map to each other without loss, both ways |
| UserMapper.ListRoundTrip | src/main/java/ru/practicum/shareit/user/dto/UserMapper.java:15-29 | the list mappings are mutually inverse |
| InMemoryUsers.UpdateConflictNeverHolds | src/main/java/ru/practicum/shareit/user/UserStorage.java:55-58 | the conflict test of updateUser as written is never true |
| InMemoryUsers.UpdateAllowsDuplicateEmail | src/main/java/ru/practicum/shareit/user/UserStorage.java:53-65 | an update that gives a user another user's email passes, and the emails are no longer distinct (see Findings) |
| InMemoryUsers.UpdateChecked | src/main/java/ru/practicum/shareit/user/UserStorage.java:53-65 | the corrected update is refused (DuplicateEmail) exactly when another user holds the email; otherwise it puts the user |
| InMemoryUsers.UpdateCheckedKeepsEmailsDistinct | src/main/java/ru/practicum/shareit/user/UserStorage.java:53-65 | the corrected update keeps emails distinct and keys equal to ids |
| InMemoryUsers.UserStorage.constructor | src/main/java/ru/practicum/shareit/user/UserStorage.java:19-20 | an empty map and the counter at 1 |
| InMemoryUsers.UserStorage.GetUserById | src/main/java/ru/practicum/shareit/user/UserStorage.java:22-28 | the stored user, or NotFound exactly when the id is absent |
| InMemoryUsers.UserStorage.CreateUser | src/main/java/ru/practicum/shareit/user/UserStorage.java:30-47 | an email in use is DuplicateEmail with no change; otherwise the user is stored under a fresh id from the counter; distinct emails are preserved |
| InMemoryUsers.UserStorage.GetUsers | src/main/java/ru/practicum/shareit/user/UserStorage.java:49-51 | every stored user, each exactly once |
| InMemoryUsers.UserStorage.UpdateUser | src/main/java/ru/practicum/shareit/user/UserStorage.java:53-65 | as written: the user is always put, and the previous value (or null) is returned |
| InMemoryUsers.UserStorage.DeleteUser | src/main/java/ru/practicum/shareit/user/UserStorage.java:67-76 | an unknown id is NotFound with no change; otherwise the user is removed and returned |
| UserAccounts.IndexOfUser | src/main/java/ru/practicum/shareit/user/UserService.java:25-28 | the row with the id, or proof that there is none |
| UserAccounts.RemoveAt | src/main/java/ru/practicum/shareit/user/UserService.java:54-58 | removing a row keeps every other row, in order |
| UserAccounts.UpdateDecision | src/main/java/ru/practicum/shareit/user/UserService.java:44-51 | an email already in use is DuplicateEmail before the user is looked up; then an unknown user is NotFound; a free email and a known user always succeed, with the stored user and the update applied |
| UserAccounts.UpdateEmailCheckedFirst | src/main/java/ru/practicum/shareit/user/UserService.java:45-47 | an update to any stored email is refused, even the user's own current email and even for an unknown id |
| UserAccounts.UpdateKeepsUnique | src/main/java/ru/practicum/shareit/user/UserService.java:44-51 | a successful update keeps ids and emails unique |
| UserAccounts.RemoveKeepsUnique | src/main/java/ru/practicum/shareit/user/UserService.java:54-58 | deleting keeps ids and emails unique |
| UserAccounts.UserService.constructor | src/main/java/ru/practicum/shareit/user/UserService.java:20-22 | an empty table and the counter at 1 |
| UserAccounts.UserService.GetUserById | src/main/java/ru/practicum/shareit/user/UserService.java:25-28 | NotFound exactly when no user has the id; otherwise that user's DTO |
| UserAccounts.UserService.GetUsers | src/main/java/ru/practicum/shareit/user/UserService.java:30-32 | the DTOs map back to exactly the table |
| UserAccounts.UserService.CreateUser | src/main/java/ru/practicum/shareit/user/UserService.java:35-41 | a duplicate email changes nothing; otherwise the user is appended under the next id and returned |
| UserAccounts.UserService.UpdateUser | src/main/java/ru/practicum/shareit/user/UserService.java:44-51 | a refused update changes nothing; otherwise only that row is replaced by the updated user, and uniqueness holds |
| UserAccounts.UserService.DeleteUser | src/main/java/ru/practicum/shareit/user/UserService.java:54-58 | an unknown id is NotFound with no change; otherwise the row is removed, returned, and no row keeps the id |
| Items.ApplyItemUpdate | src/main/java/ru/practicum/shareit/item/ItemService.java:46-60 | non-null fields replace the item's; `available` is set by Boolean.valueOf of the text; id, owner and request are kept |
| Items.ApplyItemUpdateIdempotent | src/main/java/ru/practicum/shareit/item/ItemService.java:46-60 | applying an update twice equals applying it once; an empty update changes nothing; ownership is unchanged |
| Items.UpdateOutcome | src/main/java/ru/practicum/shareit/item/ItemService.java:33-44 | an unknown item is NotFound; another user's item is Permission; a success is by the owner and is the updated item |
| Items.DeleteOutcome | src/main/java/ru/practicum/shareit/item/ItemService.java:87-94 | an unknown item is NotFound; a non-owner is Permission; the owner gets the item |
| Items.IndexOfItem | server/src/main/java/ru/practicum/shareit/item/ItemService.java:104-111 | the row with the id, or proof that there is none |
| Items.DatesFor | src/main/java/ru/practicum/shareit/item/dto/ItemMapper.java:87-88 | the dates row of the item, or none exactly when no row is about it |
| Items.DatesForExact | src/main/java/ru/practicum/shareit/item/dto/ItemMapper.java:87-88 | with distinct keys, the lookup finds each row under its own item |
| Items.CommentsOn | src/main/java/ru/practicum/shareit/item/dto/ItemMapper.java:84-85 | exactly the comments on the item |
| Items.CommentsOnAny | server/src/main/java/ru/practicum/shareit/item/ItemService.java:84-93 | exactly the comments on any listed item |
| Items.CommentsOnIsFilter | src/main/java/ru/practicum/shareit/item/dto/ItemMapper.java:84-85 | the comments on one item are the order-keeping filter of the comment table by item id |
| Items.CommentsOnAnyIsFilter | server/src/main/java/ru/practicum/shareit/item/ItemService.java:84-93 | the comments on any listed item are the order-keeping filter of the comment table |
| Items.CommentsOnSelection | server/src/main/java/ru/practicum/shareit/item/ItemService.java:84-93 | selecting the comments of several items first does not change the comments on one of them |
| Items.CommentGroup | src/main/java/ru/practicum/shareit/item/dto/ItemMapper.java:84-85 | groupingBy makes no empty group: an item without comments has no group, else its group is its comments |
| ItemMapper.MapToDto | src/main/java/ru/practicum/shareit/item/dto/ItemMapper.java:18-21 | the DTO carries id, name, description and owner, and `available` as "true"/"false" |
| ItemMapper.MapToDtos | src/main/java/ru/practicum/shareit/item/dto/ItemMapper.java:23-27 | the list maps each item in order |
| ItemMapper.MapToItemWithOwner | src/main/java/ru/practicum/shareit/item/dto/ItemMapper.java:34-39 | the item takes the DTO's fields and the given owner; `available` is true exactly when the text equals "true" ignoring case |
| ItemMapper.MapToItem | src/main/java/ru/practicum/shareit/item/dto/ItemMapper.java:29-32 | the item takes the DTO's fields and its owner |
| ItemMapper.ItemRoundTrip | src/main/java/ru/practicum/shareit/item/dto/ItemMapper.java:18-32 | item to DTO and back restores the item, except its request link |
| ItemMapper.DtoRoundTrip | src/main/java/ru/practicum/shareit/item/dto/ItemMapper.java:18-32 | a DTO with "true"/"false" survives the round trip; any other text is normalised by Boolean.valueOf |
| ItemMapper.MapToItemDateDto | src/main/java/ru/practicum/shareit/item/dto/ItemMapper.java:41-60 | the view carries the item's fields, its owner id, and the dates row's previous and next (both null without a row) |
| ItemMapper.MapToItemDateDtoWithComments | src/main/java/ru/practicum/shareit/item/dto/ItemMapper.java:62-69 | the same view, with the comments or an empty list for null |
| ItemMapper.MapToItemDateDtos | src/main/java/ru/practicum/shareit/item/dto/ItemMapper.java:71-80 | each item's view takes the dates row keyed by its id |
| ItemMapper.MapToItemDateDtosWithComments | src/main/java/ru/practicum/shareit/item/dto/ItemMapper.java:82-93 | each item's view takes its dates row and its comment group |
| ItemMapper.ItemDateDtosMeaning | src/main/java/ru/practicum/shareit/item/dto/ItemMapper.java:82-93 | each view shows exactly the comments on its item and the dates of its item's row, null when there is none |
| InMemoryItems.MatchesQueryCases | src/main/java/ru/practicum/shareit/item/ItemStorage.java:63-70 | no token matches nothing; an unavailable item never matches; an available item whose lower-cased name contains a lower-cased token matches |
| InMemoryItems.ItemStorage.constructor | src/main/java/ru/practicum/shareit/item/ItemStorage.java:19-25 | an empty map, the counter at 1, the user storage it was given |
| InMemoryItems.ItemStorage.CreateItem | src/main/java/ru/practicum/shareit/item/ItemStorage.java:31-42 | an unknown owner is NotFound with no change; otherwise the item is stored with that owner under a fresh id |
| InMemoryItems.ItemStorage.UpdateItem | src/main/java/ru/practicum/shareit/item/ItemStorage.java:44-46 | the item is put under its id and the previous value returned |
| InMemoryItems.ItemStorage.GetItemById | src/main/java/ru/practicum/shareit/item/ItemStorage.java:48-54 | the stored item, or NotFound exactly when the id is absent |
| InMemoryItems.ItemStorage.GetAllUsersItems | src/main/java/ru/practicum/shareit/item/ItemStorage.java:56-61 | exactly the stored items of the owner, each once |
| InMemoryItems.ItemStorage.GetByQuery | src/main/java/ru/practicum/shareit/item/ItemStorage.java:63-70 | exactly the stored items matching the tokens, each once |
| InMemoryItems.ItemStorage.ValuesCarryKeys | src/main/java/ru/practicum/shareit/item/ItemStorage.java:56-70 | values picked under distinct keys are distinct items, each under its own id |
| InMemoryItems.ItemStorage.DeleteItem | src/main/java/ru/practicum/shareit/item/ItemStorage.java:72-79 | an unknown id is NotFound with no change; otherwise exactly that item is removed |
| MapIteration.SelectValues | src/main/java/ru/practicum/shareit/item/ItemStorage.java:56-70 | a HashMap stream filter: every entry satisfying the test, each key once, in unspecified order |
| ItemCatalog.Tokens | src/main/java/ru/practicum/shareit/item/ItemService.java:78-82 | no token is empty |
| ItemCatalog.SplitWithoutSeparator | src/main/java/ru/practicum/shareit/item/ItemService.java:78-82 | a query without ',' or '.' splits into itself |
| ItemCatalog.TrimIdempotent | src/main/java/ru/practicum/shareit/item/ItemService.java:78-82 | trimming twice equals trimming once |
| ItemCatalog.TrimKeepsNoSeparator | src/main/java/ru/practicum/shareit/item/ItemService.java:78-82 | trimming adds no separator |
| ItemCatalog.TokensAreClean | src/main/java/ru/practicum/shareit/item/ItemService.java:78-82 | every token is non-empty, holds no separator, and has no blank at either end |
| ItemCatalog.SingleToken | src/main/java/ru/practicum/shareit/item/ItemService.java:78-82 | a query without separators gives exactly its trimmed self |
| ItemCatalog.SeparatorsOnlyHaveNoToken | src/main/java/ru/practicum/shareit/item/ItemService.java:74-84 | a non-blank query of separators only gives no token, so the search finds nothing |
| ItemCatalog.ItemService.constructor | src/main/java/ru/practicum/shareit/item/ItemService.java:23-25 | the service over the storage it was given |
| ItemCatalog.ItemService.Lookup | src/main/java/ru/practicum/shareit/item/ItemService.java:33-44 | the stored item exactly when the id is present |
| ItemCatalog.ItemService.Create | src/main/java/ru/practicum/shareit/item/ItemService.java:27-31 | an unknown user is NotFound with no change; otherwise the mapped item is stored under a fresh id with that owner, and its DTO is returned |
| ItemCatalog.ItemService.Update | src/main/java/ru/practicum/shareit/item/ItemService.java:33-44 | a refused update changes nothing; otherwise exactly that item is replaced by the updated one |
| ItemCatalog.ItemService.GetItemById | src/main/java/ru/practicum/shareit/item/ItemService.java:62-65 | NotFound exactly when the id is absent; otherwise the DTO of the stored item, which maps back to it |
| ItemCatalog.ItemService.GetAllUsersItems | src/main/java/ru/practicum/shareit/item/ItemService.java:67-72 | exactly the DTOs of the owner's items, each once |
| ItemCatalog.ItemService.GetItemsByQuery | src/main/java/ru/practicum/shareit/item/ItemService.java:74-85 | a blank query finds nothing; otherwise exactly the DTOs of the items matching a token, each once |
| ItemCatalog.ItemService.DeleteItem | src/main/java/ru/practicum/shareit/item/ItemService.java:87-94 | a refused delete changes nothing; otherwise exactly that item is removed and its DTO returned |
| ServerItemMapper.MapToDto | server/src/main/java/ru/practicum/shareit/item/dto/ItemMapper.java:19-28 | the DTO carries the item's fields, its owner's id, its request id (null without a request), and `available` as text |
| ServerItemMapper.MapToDtos | server/src/main/java/ru/practicum/shareit/item/dto/ItemMapper.java:30-34 | the list maps each item in order |
| ServerItemMapper.MapToItemForRequest | server/src/main/java/ru/practicum/shareit/item/dto/ItemMapper.java:36-39 | the item takes the DTO's fields, the owner and the request |
| ServerItemMapper.MapToItem | server/src/main/java/ru/practicum/shareit/item/dto/ItemMapper.java:41-46 | the item takes the DTO's fields and the owner, with no request |
| ServerItemMapper.ItemRoundTrip | server/src/main/java/ru/practicum/shareit/item/dto/ItemMapper.java:19-39 | item to DTO and back, with its owner, restores the item |
| ServerItemMapper.DtoRoundTrip | server/src/main/java/ru/practicum/shareit/item/dto/ItemMapper.java:19-39 | a DTO with "true"/"false" survives the round trip through an item |
| ServerItemMapper.MapToItemDateDto | server/src/main/java/ru/practicum/shareit/item/dto/ItemMapper.java:48-77 | the view carries the item's fields, owner and request; both dates are null whatever the row; null comments become an empty list |
| ServerItemMapper.DatesIgnored | server/src/main/java/ru/practicum/shareit/item/dto/ItemMapper.java:67-68 | the view does not depend on the dates row |
| ServerItemMapper.MapToItemDateDtos | server/src/main/java/ru/practicum/shareit/item/dto/ItemMapper.java:79-90 | each item's view takes its dates row and its comment group |
| ServerItemMapper.ItemDateDtosMeaning | server/src/main/java/ru/practicum/shareit/item/dto/ItemMapper.java:79-90 | each view shows exactly the comments on its item and no dates |
| ServerItemCatalog.CreateCheck | server/src/main/java/ru/practicum/shareit/item/ItemService.java:54-62 | passes exactly when the named request (if any) and the user exist; otherwise NotFound |
| ServerItemCatalog.CommentCheck | server/src/main/java/ru/practicum/shareit/item/ItemService.java:114-125 | an unknown user or item is NotFound; Validation exactly when the user has no approved booking of the item that ended before now; success exactly when the user and item are known and such a booking exists, and it names the author |
| ServerItemCatalog.CommentEligibility | server/src/main/java/ru/practicum/shareit/item/ItemService.java:114-125 | for any tables, a known user's finished approved booking of the item allows a comment; when the user's only booking of the item is unfinished or unapproved, the comment is refused |
| ServerItemCatalog.GetItemsByQuery | server/src/main/java/ru/practicum/shareit/item/ItemService.java:95-101 | a blank query finds nothing; otherwise the DTOs of the items the text search found, in order |
| ServerItemCatalog.ItemService.constructor | server/src/main/java/ru/practicum/shareit/item/ItemService.java:43-52 | empty item and comment tables, both counters at 1 |
| ServerItemCatalog.ItemService.Lookup | server/src/main/java/ru/practicum/shareit/item/ItemService.java:77-82 | the stored item with the id exactly when there is one |
| ServerItemCatalog.ItemService.Create | server/src/main/java/ru/practicum/shareit/item/ItemService.java:54-62 | a failed check changes nothing; otherwise the item is appended with its owner and request under the next id and its DTO returned |
| ServerItemCatalog.ItemService.Update | server/src/main/java/ru/practicum/shareit/item/ItemService.java:65-75 | a refused update changes nothing; otherwise exactly that row is replaced by the updated item |
| ServerItemCatalog.ItemService.GetItemById | server/src/main/java/ru/practicum/shareit/item/ItemService.java:77-82 | NotFound exactly when the item is absent; otherwise the view of the item with exactly its comments and no dates |
| ServerItemCatalog.ItemService.GetItemByIdHidesDates | server/src/main/java/ru/practicum/shareit/item/ItemService.java:77-82 | the view is built from the dates query as written, whose row the mapper then drops |
| ServerItemCatalog.ItemService.GetAllUsersItems | server/src/main/java/ru/practicum/shareit/item/ItemService.java:84-93 | one view per item of the owner, in table order, each with exactly its comments and no dates |
| ServerItemCatalog.ItemService.SelectedCommentsOfViews | server/src/main/java/ru/practicum/shareit/item/ItemService.java:84-93 | the views built from the selected comments show each item's full comments |
| ServerItemCatalog.ItemService.DeleteItem | server/src/main/java/ru/practicum/shareit/item/ItemService.java:104-111 | a refused delete changes nothing; otherwise exactly that row is removed and its DTO returned |
| ServerItemCatalog.RemoveRow | server/src/main/java/ru/practicum/shareit/item/ItemService.java:104-111 | deleting one row of the item table leaves no row with its id and keeps the ids distinct, issued and the items owned |
| ServerItemCatalog.ItemService.AddComment | server/src/main/java/ru/practicum/shareit/item/ItemService.java:114-125 | a failed check changes nothing; otherwise a comment with the text, the item, the author's name and `now` is appended under the next id and returned |
| Requests.IndexOfRequest | server/src/main/java/ru/practicum/shareit/request/ItemRequestService.java:62-65 | the row with the id, or proof that there is none |
| ItemRequestMapper.RequestorId | server/src/main/java/ru/practicum/shareit/request/dto/ItemRequestMapper.java:32-35 | null exactly when the request has no requestor, else the requestor's id |
| ItemRequestMapper.MapToItemRequest | server/src/main/java/ru/practicum/shareit/request/dto/ItemRequestMapper.java:17-27 | an unsaved request (id 0) with the description, the requestor and the creation instant |
| ItemRequestMapper.MapToItemRequestDto | server/src/main/java/ru/practicum/shareit/request/dto/ItemRequestMapper.java:29-41 | the DTO carries id, description and creation, and the requestor id or null |
| ItemRequestMapper.MapToItemRequestDtos | server/src/main/java/ru/practicum/shareit/request/dto/ItemRequestMapper.java:76-80 | the list maps each request in order |
| ItemRequestMapper.MapItemToItemRequestData | server/src/main/java/ru/practicum/shareit/request/dto/ItemRequestMapper.java:66-74 | the item's id, name and owner's id |
| ItemRequestMapper.ItemsData | server/src/main/java/ru/practicum/shareit/request/dto/ItemRequestMapper.java:44-46 | the list maps each item in order |
| ItemRequestMapper.WithItems | server/src/main/java/ru/practicum/shareit/request/dto/ItemRequestMapper.java:50-64 | the DTO carries the request's fields, its requestor id or null, and the given item list as is |
| ItemRequestMapper.MapToItemRequestItemsDto | server/src/main/java/ru/practicum/shareit/request/dto/ItemRequestMapper.java:43-48 | the request with the data of the given items, never a null list |
| ItemRequestMapper.ItemsFor | server/src/main/java/ru/practicum/shareit/item/ItemStorageDb.java:19 | exactly the items answering the request |
| ItemRequestMapper.ItemsForIsFilter | server/src/main/java/ru/practicum/shareit/item/ItemStorageDb.java:19 | the selection is the order-preserving filter of the table |
| ItemRequestMapper.GroupFor | server/src/main/java/ru/practicum/shareit/request/dto/ItemRequestMapper.java:96-103 | null exactly when no item answers the request; otherwise the non-empty data of the answering items in order |
| ItemRequestMapper.ItemsForSnoc | server/src/main/java/ru/practicum/shareit/request/dto/ItemRequestMapper.java:86-94 | one more item adds itself to its own request's selection only |
| ItemRequestMapper.AnsweredSnoc | server/src/main/java/ru/practicum/shareit/request/dto/ItemRequestMapper.java:90-92 | a request is answered after one more item exactly when it was before or the item answers it |
| ItemRequestMapper.GroupingSnoc | server/src/main/java/ru/practicum/shareit/request/dto/ItemRequestMapper.java:86-94 | one loop step (create the request's list if missing, then append the item's data) turns the grouping of the items so far into the grouping of one more item |
| ItemRequestMapper.ItemsDataSnoc | server/src/main/java/ru/practicum/shareit/request/dto/ItemRequestMapper.java:93 | adding one item's data at the end of a group is the data of the longer list |
| ItemRequestMapper.GroupItems | server/src/main/java/ru/practicum/shareit/request/dto/ItemRequestMapper.java:84-94 | the map has a key exactly for each answered request, holding the data of its items in order |
| ItemRequestMapper.MapToItemRequestItemsDtos | server/src/main/java/ru/practicum/shareit/request/dto/ItemRequestMapper.java:82-104 | one DTO per request, in order, with its group of items or null |
| ItemRequestMapper.GroupingIsExact | server/src/main/java/ru/practicum/shareit/request/dto/ItemRequestMapper.java:82-104 | every item listed for a request answers it, and every item answering a request is listed for it |
| ItemRequests.RequestsOf | server/src/main/java/ru/practicum/shareit/request/ItemRequestStorageDb.java:12 | exactly the user's requests, newest first |
| ItemRequests.RequestsOfOthers | server/src/main/java/ru/practicum/shareit/request/ItemRequestStorageDb.java:10 | exactly the requests of other requestors, newest first (requests without a requestor excluded) |
| ItemRequests.RequestIds | server/src/main/java/ru/practicum/shareit/request/ItemRequestService.java:67-69 | each request's id, in order |
| ItemRequests.ItemsForAny | server/src/main/java/ru/practicum/shareit/item/ItemStorageDb.java:17 | exactly the items answering one of the listed requests |
| ItemRequests.ItemsForAnyIsFilter | server/src/main/java/ru/practicum/shareit/item/ItemStorageDb.java:17 | the items answering one of the listed requests are the order-keeping filter of the item table |
| ItemRequests.ItemsForOfSelection | server/src/main/java/ru/practicum/shareit/request/ItemRequestService.java:38-43 | selecting the items of several requests first does not change one request's items or their order |
| ItemRequests.GroupOfSelection | server/src/main/java/ru/practicum/shareit/request/ItemRequestService.java:38-43 | so each request's group from the selection is its group from all items |
| ItemRequests.ItemRequestService.constructor | server/src/main/java/ru/practicum/shareit/request/ItemRequestService.java:25-29 | no requests, the counter at 1 |
| ItemRequests.ItemRequestService.GetItemRequestById | server/src/main/java/ru/practicum/shareit/request/ItemRequestService.java:62-65 | the stored request with the id exactly when there is one, else NotFound |
| ItemRequests.ItemRequestService.CreateItemRequest | server/src/main/java/ru/practicum/shareit/request/ItemRequestService.java:31-36 | an unknown requestor is NotFound with no change; otherwise the request is appended under the next id and returned with the requestor's id |
| ItemRequests.ItemRequestService.FindUserItemRequests | server/src/main/java/ru/practicum/shareit/request/ItemRequestService.java:38-43 | NotFound exactly for an unknown user; otherwise the user's requests newest first, each with exactly the items answering it, or null |
| ItemRequests.ItemRequestService.FindRequestsOfAnotherUser | server/src/main/java/ru/practicum/shareit/request/ItemRequestService.java:45-49 | NotFound exactly for an unknown user; otherwise requests of other requestors only, newest first |
| ItemRequests.ItemRequestService.FindItemRequestById | server/src/main/java/ru/practicum/shareit/request/ItemRequestService.java:51-55 | NotFound exactly for an unknown request; otherwise that request with the data of all items answering it |
| Text.CharEqualsUpperIffFold | src/main/java/ru/practicum/shareit/item/ItemService.java:46-60 | a character equals an upper-case letter ignoring case exactly when it folds to it |
| Text.EqualsUpperWordIffFold | gateway/src/main/java/ru/practicum/shareit/booking/model/BookingRequestState.java:19-21 | a string equals an upper-case word ignoring case exactly when it folds to it |
| Text.FoldToLowerUpperWord | gateway/src/main/java/ru/practicum/shareit/booking/model/BookingRequestState.java:19-21 | a lower-cased upper-case word folds back to itself |
| Text.ToLower | src/main/java/ru/practicum/shareit/item/ItemStorage.java:63-70 | lower-cases each ASCII letter, keeping the length |
| Text.ContainsIffOccurs | src/main/java/ru/practicum/shareit/item/ItemStorage.java:63-70 | String.contains holds exactly when the text occurs at some index |
| Text.SkipTrimmed | src/main/java/ru/practicum/shareit/item/ItemService.java:78-82 | the forward cursor stops at the first character trim keeps, having passed only characters up to ' ' |
| Text.BackTrimmed | src/main/java/ru/practicum/shareit/item/ItemService.java:78-82 | the backward cursor stops after the last character trim keeps, never before the forward cursor, having passed only characters up to ' ' |
| Text.Trim | src/main/java/ru/practicum/shareit/item/ItemService.java:78-82 | trim is a contiguous slice of the input with only characters up to ' ' around it, and neither its first nor its last character is one of those |
| Text.TrimFixedPoint | src/main/java/ru/practicum/shareit/item/ItemService.java:78-82 | trim leaves a string unchanged exactly when it neither starts nor ends with a character up to ' ' |
| Text.Split | src/main/java/ru/practicum/shareit/item/ItemService.java:78-82 | at least one piece, and no piece holds a separator |
| Text.SplitJoin | src/main/java/ru/practicum/shareit/item/ItemService.java:78-82 | the pieces joined with their separators give back the query |
| Text.BooleanRoundTrip | src/main/java/ru/practicum/shareit/item/ItemService.java:46-60 | Boolean.valueOf reads back what Boolean.toString wrote |

## Left out

- The clock: `LocalDateTime.now()` is the parameter `now`.
- Integer width: ids and instants are unbounded integers. The 32-bit id counters never wrap in the model.
- JPA `save` with a non-zero id (a merge): saving always assigns the next identity value.
- Database and hash-map order:
  - rows come back in table order;
  - the ORDER BY start DESC sort is stable, so ties keep table order where the database leaves it unspecified;
  - the order of GROUP BY rows and of HashMap values is not fixed; `SelectValues` fixes only which entries appear.
- Null pointer exceptions: the source dereferences without checking, so these become preconditions:
  - an item's owner (`AllOwned`, `AllStoredOwned`);
  - the request of every item passed to the grouped request mapping.
- Duplicate keys in `Collectors.toMap`: the dates rows it collects are required to have distinct item ids (`DatesItemsDistinct`). A duplicate would make the source throw IllegalStateException, which is not modelled.
- Aliasing and in-place mutation of entity objects: entities are values, and an update replaces the stored value.
- Text.ToLower: the lower-casing of the in-memory search maps only 'A'..'Z' and is independent of the locale. String.toLowerCase also maps non-ASCII letters, so an item named "\u212Aey" matches the token "k" in the source but not in the model. It also depends on the default locale (the Turkish dotted and dotless I), which is not modelled.
- Case-insensitive comparison beyond ASCII: `Text.CharEqualsIgnoreCase` handles ASCII and the four non-ASCII characters whose case partner is an ASCII letter (U+0130, U+0131, U+017F and U+212A). No other non-ASCII pair is needed, because it is only used against the upper-case ASCII names of the booking states.
- Concurrency, transactions and Spring wiring.
- The full-text item query (`findByQueryText`): its JPQL text is not part of this model, so its result is the parameter `found` of `ServerItemCatalog.GetItemsByQuery`.
- The comment entity and `CommentMapper`: comments are stored as their DTOs.
- Tables that services read but do not own: the user and item tables of the request service and of the server item service are parameters.
- The booking service's users and items: users are a set of ids, and items are a map to their id, availability and owner.
- Controllers, the gateway's HTTP clients, and bean-validation annotations.
- ItemMapper.ItemRoundTrip: drops the item's request link, because the earlier item DTO has no request field.
- BookingEngine.BookingService.ListFor: states only when a listing succeeds. Its rows are stated by FindAllUsersBookings and FindAllBookingsOfOwner once the strategy tables are filled.
- BookingQueries.BookingDatesOf: states only the item of the row. Its `previous` and `next` are stated by BookingDatesMeaning.

## Findings

| source | as written | input that shows it | evidently intended | confidence | as-written member | corrected member |
|---|---|---|---|---|---|---|
| src/main/java/ru/practicum/shareit/user/UserStorage.java:55-58 | the duplicate-email test looks for a stored user equal to the argument with a different id, which cannot exist because equal users have the same id | users {1: a@x, 2: b@x}; update user 2 to email a@x: the update passes and two users share a@x | refuse the update when another user holds the email | not executed | InMemoryUsers.UpdateAllowsDuplicateEmail | InMemoryUsers.UpdateChecked |
| server/src/main/java/ru/practicum/shareit/booking/BookingStorageDb.java:70-76 | the single-item dates query puts MAX(start of future bookings) in `previous` and MIN(end of past bookings) in `next` | one APPROVED booking 10-20 of item 7, asked at 5: `previous` is 10 (after now) and `next` is null | `previous` = latest past end and `next` = earliest future start, as the owner query at lines 78-86 does | not executed | ServerBookingQueries.ItemBookingDatesAsWrittenSwapsFields | ServerBookingQueries.ItemBookingDates |
