# personeltakip: the attendance and token engine in Dafny

This project models the core of *personeltakip*, a Spring staff-attendance service. The core has three parts that work together.

- **QR token lifecycle.** The token service gives an employee at most one reusable token per calendar day. A token expires 24 hours after it is created. It has two consumption flags, one for check-in and one for check-out, plus a legacy `used` flag. A token can be presented while it is not expired and not used for both actions.
- **Attendance state machine.** A check-in appends a CHECKED_IN record. A check-out turns the employee's newest CHECKED_IN record into CHECKED_OUT. Every guard is tested before anything is saved, so the service keeps *at most one CHECKED_IN record per employee*. The mobile endpoint validates the request. It decides the direction from a different test: whether the employee has a record without a check-out time. The administrator's edit can make the two tests disagree, and `EditCanStrandEmployee` shows the employee who is then stuck.
- **Enrollment and login.** `initiateRegistration` checks the employee against the master registry. It caches a zero-padded six-digit code under the national ID *as typed* and asks for an SMS. `completeRegistration` checks the code, creates the account and removes the code. The first account ever created is ADMIN. The web controller maps every service rejection to 400. `getCurrentUser` resolves the user from the session or the security context and assembles the profile. The mobile login checks the registry only.

## How it is modelled

- There is one Dafny module per core Java file, named after the Java class. The entity records are datatypes.
- Stateful services are classes whose fields are their stores:
  - `QRCodeService.tokens`: token string to row;
  - `AttendanceStore.records`: records in id order, plus the next id;
  - `AuthService.smsVerificationCodes`, `users` and `nextUserId`;
  - `Session.user`.
- Each mutating method is specified against a pure guard function: `CheckInRejection`, `CheckOutRejection`, `InitiationCheck`, `CompletionCheck` or `RequestRejection`. Its `ensures` also states the whole new state.
- Lemmas prove properties about these guard functions, and invariants that each write preserves.
- The parameter kinds are:
  - **Time** is `now: int` in seconds. A calendar day is `t / 86400`.
  - **Coordinates** are `real`.
  - `UUID.randomUUID()` is a `randomUuid` parameter that must not already be in the table.
  - `new Random().nextInt(999999)` is `random` with `0 <= random < 999999`.
  - The password encoder is a pair of parameters, `encode` and `matches`.
  - `LocalDateTime.parse` is a partial function parameter.
  - An SMS failure is an `smsFailure` parameter.
- Written out concretely:
  - `String.trim`;
  - `String.split(",")`, which drops trailing empty pieces and yields `[s]` when there is no comma;
  - `Integer.parseInt` and `Long.parseLong` over ASCII digits with an optional sign and the 32- or 64-bit range;
  - `toString`;
  - `String.format("%06d", n)`.
- The master registry is a read-only value. It holds the person table, whose employee number is its primary key, and the detailed-information query as a partial map from (national ID, employee number) to its columns.
- A Spring Data finder returning `Optional` can find no row, one row, or several rows, and several rows make it throw. `Lookup` models the three outcomes.

`isValidToken` rejects a token only when `expiresAt` is before `now`, so a token is still valid at `now == expiresAt` (`QRCodeToken.FreshTokenLifetime`, `QRCodeService.QRCodeService.IsValidToken`).

## Model

| member | source | states |
|---|---|---|
| QRCodeToken.QRCodeTokenEntity.constructor | src/main/java/com/personeltakip/model/QRCodeToken.java:32-39 | a new token entity has `used`, `usedForCheckIn` and `usedForCheckOut` all false and every other field unset |
| QRCodeToken.QRCodeTokenEntity.OnCreate | src/main/java/com/personeltakip/model/QRCodeToken.java:53-61 | the hook assigns a random token string only when none was set, so a pre-set string is kept; creation time is the clock and expiry is 24 hours later; no other field changes |
| QRCodeToken.FreshTokenLifetime | src/main/java/com/personeltakip/model/QRCodeToken.java:58-60 | a fresh, unconsumed token is presentable exactly while `now <= createdAt + 24h`, including the expiry instant itself |
| QRCodeTokenRepository.FindByToken | src/main/java/com/personeltakip/repository/QRCodeTokenRepository.java:14 | finds a row exactly when the string is in the table; the row is that entry and carries that token string |
| QRCodeTokenRepository.FindByTokenAndUsedFalse | src/main/java/com/personeltakip/repository/QRCodeTokenRepository.java:15 | yields the row exactly when it exists with legacy `used` false, and then it is `findByToken`'s row |
| QRCodeTokenRepository.FindByPersonPsicnoAndDate | src/main/java/com/personeltakip/repository/QRCodeTokenRepository.java:18-19 | a row is in the result iff it is in the table, has that employee number and was created on that calendar day |
| QRCodeTokenRepository.FindUnusedByPersonPsicnoAndDate | src/main/java/com/personeltakip/repository/QRCodeTokenRepository.java:22-23 | the previous result restricted to `used == false` exactly; the check-in and check-out flags play no part |
| QRCodeTokenRepository.UnusedTodayAtMostOne | src/main/java/com/personeltakip/service/QRCodeService.java:29-42 | while the table holds one unused token per employee and day, the same-day query returns at most one row |
| QRCodeService.Marked | src/main/java/com/personeltakip/service/QRCodeService.java:110-141 | find-set-save keeps the set of token strings and leaves every other row unchanged |
| QRCodeService.MarkedChangesOnlyTheFlag | src/main/java/com/personeltakip/service/QRCodeService.java:110-141 | marking an unknown token is a no-op; otherwise only the named flag of the named row changes, to true; marking twice is marking once |
| QRCodeService.MarkedKeepsInvariants | src/main/java/com/personeltakip/service/QRCodeService.java:110-141 | marking keeps rows filed under their own string and keeps at most one unused token per employee and day |
| QRCodeService.BothActionsExhaustToken | src/main/java/com/personeltakip/service/QRCodeService.java:84-85 | a token marked for both check-in and check-out, in either order, is unpresentable at every time |
| QRCodeService.ReuseIgnoresDualFlags | src/main/java/com/personeltakip/service/QRCodeService.java:34-42 | marking for check-in or check-out leaves the strings of the same-day reuse query unchanged, so a fully consumed token is still reused; the legacy flag removes the token from that query |
| QRCodeService.ReusedTokenIsTheOnlyOne | src/main/java/com/personeltakip/service/QRCodeService.java:36-41 | under the table invariants, the reused row is the only one the query returns and is stored under its own token |
| QRCodeService.InsertKeepsInvariants | src/main/java/com/personeltakip/service/QRCodeService.java:44-52 | inserting a fresh unused token for an employee with none that day keeps both invariants and makes it that day's only unused token |
| QRCodeService.QRCodeService.GenerateQRTokenForPerson | src/main/java/com/personeltakip/service/QRCodeService.java:33-53 | with a same-day unused token, returns its string and changes nothing; otherwise adds exactly one row: fresh string, the given employee, national ID, names and ip, created now, expiring in 24h, flags false. Either way, afterwards the returned token is the day's only unused one |
| QRCodeService.QRCodeService.IsValidToken | src/main/java/com/personeltakip/service/QRCodeService.java:76-88 | true iff the token exists, its expiry is not before `now`, and it is not used for both actions |
| QRCodeService.QRCodeService.GetValidToken | src/main/java/com/personeltakip/service/QRCodeService.java:93-105 | yields the stored row exactly when `isValidToken` holds, otherwise nothing; it only reads |
| QRCodeService.QRCodeService.MarkTokenAsUsedForCheckIn | src/main/java/com/personeltakip/service/QRCodeService.java:110-117 | the table becomes `Marked(old, token, ForCheckIn)`, with both table invariants kept |
| QRCodeService.QRCodeService.MarkTokenAsUsedForCheckOut | src/main/java/com/personeltakip/service/QRCodeService.java:122-129 | the table becomes `Marked(old, token, ForCheckOut)`, with both table invariants kept |
| QRCodeService.QRCodeService.MarkTokenAsUsed | src/main/java/com/personeltakip/service/QRCodeService.java:134-141 | the table becomes `Marked(old, token, Legacy)`; by `ReuseIgnoresDualFlags` this is the one flag that ends same-day reuse |
| AttendanceRepository.FindByEmployeeNumberOrderByCheckInTimeDesc | src/main/java/com/personeltakip/repository/AttendanceRepository.java:14 | exactly the employee's records, each with its stored multiplicity, ordered newest check-in first |
| AttendanceRepository.FindFirstByEmployeeNumberAndStatusOrderByCheckInTimeDesc | src/main/java/com/personeltakip/repository/AttendanceRepository.java:16 | a stored record of that employee and status whose check-in is not older than any other such record, and one the first finder lists; nothing exactly when the employee has no record with that status |
| AttendanceRepository.FindById | src/main/java/com/personeltakip/service/AdminService.java:21-22 | a stored record with that id, or nothing exactly when no record has it |
| AttendanceRepository.IdDeterminesRecord | src/main/java/com/personeltakip/model/AttendanceRecord.java:14-16 | with generated, strictly increasing ids, two stored records with one id are the same record |
| AttendanceRepository.Replaced | src/main/java/com/personeltakip/service/AttendanceService.java:105 | saving a record over its stored id replaces exactly the rows with that id and keeps the table's length and order |
| AttendanceRepository.WithoutId | src/main/java/com/personeltakip/service/AdminService.java:33-35 | a record remains iff it was stored and has another id; an unknown id leaves the table as it was |
| AttendanceRepository.WithoutIdKeepsIdOrder | src/main/java/com/personeltakip/service/AdminService.java:33-35 | deleting a record keeps the ids strictly increasing along the table |
| AttendanceRepository.AttendanceStore.Insert | src/main/java/com/personeltakip/service/AttendanceService.java:62 | saving a new record gives it the next generated id and appends it; ids remain increasing and below the next id |
| AttendanceRepository.AttendanceStore.Update | src/main/java/com/personeltakip/service/AttendanceService.java:105 | saving a record whose id is stored overwrites that row, and the id order is kept |
| AttendanceRepository.AttendanceStore.DeleteById | src/main/java/com/personeltakip/service/AdminService.java:34 | the table loses the record with that id, and only it; the id order is kept |
| AttendanceService.CheckInRejection | src/main/java/com/personeltakip/service/AttendanceService.java:33-51 | check-in is refused in this order: no presentable token, then an existing CHECKED_IN record, then a token already used for check-in. It passes iff none applies |
| AttendanceService.CheckOutRejection | src/main/java/com/personeltakip/service/AttendanceService.java:79-96 | check-out is refused in this order: no presentable token, then a token already used for check-out, then no CHECKED_IN record. It passes iff none applies |
| AttendanceService.CheckedOut | src/main/java/com/personeltakip/service/AttendanceService.java:98-103 | the closed record has status CHECKED_OUT and the given check-out fields; restoring those six fields gives back the original record |
| AttendanceService.CheckInKeepsAtMostOneCheckedIn | src/main/java/com/personeltakip/service/AttendanceService.java:40-62 | appending a record for an employee with no CHECKED_IN record keeps at most one CHECKED_IN record per employee |
| AttendanceService.CheckOutKeepsAtMostOneCheckedIn | src/main/java/com/personeltakip/service/AttendanceService.java:92-105 | saving a non-CHECKED_IN record over a stored one keeps at most one CHECKED_IN record per employee |
| AttendanceService.NoSecondCheckIn | src/main/java/com/personeltakip/service/AttendanceService.java:41-45 | after a successful check-in, another check-in for that employee is refused whatever token is shown |
| AttendanceService.CheckOutClosesOpenRecord | src/main/java/com/personeltakip/service/AttendanceService.java:92-105 | after a check-out the employee has no CHECKED_IN record left |
| AttendanceService.ServiceWritesKeepConsistency | src/main/java/com/personeltakip/service/AttendanceService.java:53-103 | the service's own writes keep every record's status in agreement with whether it has a check-out time |
| AttendanceService.AttendanceService.ProcessCheckIn | src/main/java/com/personeltakip/service/AttendanceService.java:30-70 | the timestamp variant with check-in time taken from the server clock |
| AttendanceService.AttendanceService.ProcessCheckOut | src/main/java/com/personeltakip/service/AttendanceService.java:76-113 | the timestamp variant with check-out time taken from the server clock |
| AttendanceService.AttendanceService.ProcessCheckInWithTimestamp | src/main/java/com/personeltakip/service/AttendanceService.java:118-160 | a rejection returns its error and changes neither records nor tokens. Otherwise one CHECKED_IN record is appended, with the given time, ip, coordinates and details and empty check-out fields; then only the token's check-in flag is set. At most one CHECKED_IN per employee is kept |
| AttendanceService.AttendanceService.ProcessCheckOutWithTimestamp | src/main/java/com/personeltakip/service/AttendanceService.java:165-204 | a rejection changes nothing. Otherwise the employee's newest CHECKED_IN record, and only it, is closed with the given time and data; then only the token's check-out flag is set. The invariant is kept |
| AttendanceService.AttendanceService.GetAttendanceRecordsByEmployee | src/main/java/com/personeltakip/service/AttendanceService.java:206-211 | the employee's stored records, each exactly as often as stored and no record of another employee, newest check-in first |
| AdminService.Edited | src/main/java/com/personeltakip/service/AdminService.java:24-28 | check-in time, check-out time and check-in latitude come from the submitted record; every other field, status included, is kept |
| AdminService.EditKeepsAtMostOneCheckedIn | src/main/java/com/personeltakip/service/AdminService.java:20-31 | the edit keeps every record's employee and status, so it keeps at most one CHECKED_IN per employee |
| AdminService.DeleteKeepsAtMostOneCheckedIn | src/main/java/com/personeltakip/service/AdminService.java:33-35 | deleting keeps at most one CHECKED_IN per employee |
| AdminService.AdminService.GetAllAttendanceRecords | src/main/java/com/personeltakip/service/AdminService.java:16-18 | every stored record and nothing else |
| AdminService.AdminService.UpdateAttendanceRecord | src/main/java/com/personeltakip/service/AdminService.java:20-31 | an unknown id is an error with the "Record not found with id" message and changes nothing; otherwise that row is replaced by its edited form, which is returned |
| AdminService.AdminService.DeleteAttendanceRecord | src/main/java/com/personeltakip/service/AdminService.java:33-35 | the table loses the record with that id, and an unknown id changes nothing |
| MobileAttendanceController.RequestRejection | src/main/java/com/personeltakip/controller/MobileAttendanceController.java:56-84 | the request guards in order: missing field, non-numeric employee number, unknown employee, latitude outside [-90, 90], longitude outside [-180, 180], unpresentable token. It passes iff all hold; 401 is exactly an unknown employee, or in-range coordinates with a bad token |
| MobileAttendanceController.FirstWithoutCheckOut | src/main/java/com/personeltakip/controller/MobileAttendanceController.java:90-92 | a listed record without a check-out time, or nothing exactly when every record has one |
| MobileAttendanceController.ChooseDirection | src/main/java/com/personeltakip/controller/MobileAttendanceController.java:86-92 | check-out iff some record of the employee lacks a check-out time; status is not consulted |
| MobileAttendanceController.ChooseTimestamp | src/main/java/com/personeltakip/controller/MobileAttendanceController.java:94-108 | the parsed timestamp when the text is present, not blank and parses; the server time otherwise, with no error |
| MobileAttendanceController.DirectionMatchesServiceGuards | src/main/java/com/personeltakip/controller/MobileAttendanceController.java:86-133 | while status and check-out time agree on every record, the chosen direction is check-out iff the service sees a CHECKED_IN record, so neither "already checked in" nor "no active check-in" can follow |
| MobileAttendanceController.EditCanStrandEmployee | src/main/java/com/personeltakip/service/AdminService.java:25-27 | an edit that gives an open record a check-out time leaves it CHECKED_IN; the endpoint then chooses check-in and the service refuses it as already checked in |
| MobileAttendanceController.MobileAttendanceController.ProcessAttendance | src/main/java/com/personeltakip/controller/MobileAttendanceController.java:53-147 | a rejected request returns its response and changes nothing. Otherwise the direction and time are chosen, and an absent ip becomes "" and an absent coordinate 0.0. A service rejection is 500 with its message and no change; success is 200 naming the direction, with the saved record and the service's state change |
| PersonRepository.FindBySicilNo | src/main/java/com/personeltakip/automation/repository/PersonRepository.java:15 | the person with that employee number, the only one since it is the primary key; nothing exactly when none has it |
| PersonRepository.FindBySicilNoAndTcKimlikNo | src/main/java/com/personeltakip/automation/repository/PersonRepository.java:19 | found iff a person has both numbers, and the result has both |
| PersonRepository.FindByTcKimlikNo | src/main/java/com/personeltakip/automation/repository/PersonRepository.java:17 | not found iff nobody has that national ID; a found person has it and is the only one who does |
| PersonRepository.KeyedRowsAreDistinct | src/main/java/com/personeltakip/automation/model/Person.java:14-16 | a table keyed by employee number holds each row at most once |
| PersonRepository.SoleNationalIdMatchIsFound | src/main/java/com/personeltakip/automation/repository/PersonRepository.java:17 | when exactly one person has a national ID, the lookup by national ID finds that person |
| UserRepository.FindByTckiml | src/main/java/com/personeltakip/repository/UserRepository.java:12 | not found iff no account has that national ID; found means the only such account; non-unique means at least two |
| UserRepository.TwoMatchesAreNonUnique | src/main/java/com/personeltakip/repository/UserRepository.java:12 | two different accounts with one national ID make the finder report a non-unique result |
| AuthService.PhoneNumber | src/main/java/com/personeltakip/service/AuthService.java:63-72 | `cepTel` when present and not blank, else `CEPTEL` when that is, else none; a phone found is never blank |
| AuthService.InitiationAccepts | src/main/java/com/personeltakip/service/AuthService.java:40-72 | initiation is accepted iff both inputs are present and not blank, both numbers parse, the registry has the pair, no account has the national ID, and a phone is on file |
| AuthService.InitiationRefusals | src/main/java/com/personeltakip/service/AuthService.java:41-61 | a blank national ID is refused first, then a blank employee number; "not found" comes exactly when the registry lacks the parsed pair; "already registered" comes only when an account has the national ID |
| AuthService.CompletionRefusals | src/main/java/com/personeltakip/service/AuthService.java:85-106 | completion refuses each blank input in argument order, then a missing or different cached code |
| AuthService.CompletionAccepts | src/main/java/com/personeltakip/service/AuthService.java:84-119 | completion goes ahead iff all four inputs are present and not blank, the cached code for the national ID text equals the one given, and both numbers parse; the account then gets those parsed numbers |
| AuthService.CodeIsSingleUse | src/main/java/com/personeltakip/service/AuthService.java:101-124 | once a completion removed the code, the same request is refused as an invalid code |
| AuthService.OtherSpellingStillCompletes | src/main/java/com/personeltakip/service/AuthService.java:101-106 | removing one national ID text's code does not change completion for any other text |
| AuthService.TwoSpellingsGiveTwoAccounts | src/main/java/com/personeltakip/service/AuthService.java:113-121 | two spellings of one national ID completed in turn leave two accounts with one number, which the account finder then reports as non-unique |
| AuthService.SameNumberSameInitiation | src/main/java/com/personeltakip/service/AuthService.java:54-61 | initiation depends on the national ID only through its numeric value |
| AuthService.LeadingZeroSpelling | src/main/java/com/personeltakip/service/AuthService.java:54 | "0123" and "123" are two non-blank texts that parse to the same national ID |
| AuthService.AppendKeepsAccountInvariants | src/main/java/com/personeltakip/service/AuthService.java:108-121 | appending an account that is ADMIN exactly when the table was empty keeps "only the first account is ADMIN" and keeps ids below the next id |
| AuthService.CacheUpdatesKeepCodesWellFormed | src/main/java/com/personeltakip/service/AuthService.java:75-76 | storing a six-digit code under a parsable national ID, or removing a code, keeps every cached code six digits |
| AuthService.AuthService.InitiateRegistration | src/main/java/com/personeltakip/service/AuthService.java:39-81 | a refused request caches and sends nothing. Otherwise the code, `random` zero-padded to six digits, replaces any earlier code for that text; then exactly one SMS is requested to the phone. A failed send is an error but leaves the code cached |
| AuthService.AuthService.CompleteRegistration | src/main/java/com/personeltakip/service/AuthService.java:83-126 | a refusal changes nothing. Otherwise exactly one account is appended, with the next id, the parsed numbers, the typed national ID as username, the encoded password, and ADMIN iff the table was empty; that text's code is removed |
| AuthService.AuthService.Login | src/main/java/com/personeltakip/service/AuthService.java:128-156 | blank inputs are refused in order; success iff the national ID parses, exactly one account has it and the password matches its hash; "User not found." iff no account has it |
| AuthService.AuthService.GetUserByNationalId | src/main/java/com/personeltakip/service/AuthService.java:158-161 | the only stored account with that national ID; an unparsable ID is a number-format error, and no account gives "User not found" |
| AuthService.RegisteredUserCanLogIn | src/main/java/com/personeltakip/service/AuthService.java:109-151 | the newest account, whose national ID no one else has and whose hash is `encode(password)` as completion stores it, logs in with that password whenever the encoder accepts a password against its own encoding |
| AuthController.PersonFor | src/main/java/com/personeltakip/controller/AuthController.java:180-211 | the person is looked up by (employee number, national ID) first and by national ID alone only if that fails; a person found has the account's national ID; none iff neither lookup yields one row |
| AuthController.PersonForFallsBackOnSoleMatch | src/main/java/com/personeltakip/controller/AuthController.java:194-204 | when the employee numbers differ but one person alone has the national ID, that person is used |
| AuthController.FullName | src/main/java/com/personeltakip/controller/AuthController.java:188-191 | the first name verbatim (absent as ""), a space, then a stretch of the surname with only white space cut from its ends and none left at either end, i.e. the trimmed surname; the trim touches only the surname |
| AuthController.FullNameIgnoresSurnameBlanks | src/main/java/com/personeltakip/controller/AuthController.java:190-191 | trimming the surname beforehand does not change the full name |
| AuthController.ProfileOf | src/main/java/com/personeltakip/controller/AuthController.java:172-218 | national ID, username, role and employee number come from the account; names come from the person found, absent as "", or are empty with the username as full name when none is found |
| AuthController.AuthController.RegisterUser | src/main/java/com/personeltakip/controller/AuthController.java:53-63 | 200 "SMS verification code sent." after a successful initiation; any rejection, a failed SMS included, is 400 with its message; cache and SMS log change exactly as the service says |
| AuthController.AuthController.VerifyAndCreateUser | src/main/java/com/personeltakip/controller/AuthController.java:70-80 | 200 "User registered successfully." once the account exists; any rejection is 400 with its message and changes nothing |
| AuthController.AuthController.GetCurrentUser | src/main/java/com/personeltakip/controller/AuthController.java:144-225 | a session user is always shown and kept. Otherwise a principal other than anonymous is loaded by national ID and cached in the session, and a load failure is 404 with its message. Neither gives 401 "Not authenticated" |
| MobileAuthController.LoginTrimmed | src/main/java/com/personeltakip/controller/MobileAuthController.java:51-84 | the answer is 200, 400 or 401, and 200 exactly when it carries a person |
| MobileAuthController.Login | src/main/java/com/personeltakip/controller/MobileAuthController.java:39-92 | the answer is 200, 400 or 401, and 200 exactly when it carries a person; it is a function of the registry and the request, with no account table and no state |
| MobileAuthController.LoginRefusals | src/main/java/com/personeltakip/controller/MobileAuthController.java:43-73 | an absent or blank field gives 400 "required", then a field that is not numeric after trimming gives 400 "numeric"; 401 "person not found" exactly when both parse but the registry lacks the pair |
| MobileAuthController.LoginAcceptsRegistered | src/main/java/com/personeltakip/controller/MobileAuthController.java:65-84 | 200 iff the request is complete, numeric and registered; the body carries that person's numbers and names, absent as "" |
| MobileAuthController.LoginIgnoresSurroundingBlanks | src/main/java/com/personeltakip/controller/MobileAuthController.java:55-56 | white space around either identifier does not change the answer |
| MobileAuthController.RegisteredPersonLogsIn | src/main/java/com/personeltakip/controller/MobileAuthController.java:65-84 | every registry person whose numbers fit int and long logs in with their decimal text and gets back their own numbers and names |
| QRCodeController.ClientIpAddress | src/main/java/com/personeltakip/controller/QRCodeController.java:94-102 | with no X-Forwarded-For header, the remote address; the only failure is the empty-split exception |
| QRCodeController.ClientIpAddressIsFirstHop | src/main/java/com/personeltakip/controller/QRCodeController.java:98-101 | with the header, the text before the first comma, trimmed; the whole header trimmed when it has no comma; never a comma; failure iff the header is a non-empty run of commas |
| QRCodeController.GenerationTarget | src/main/java/com/personeltakip/controller/QRCodeController.java:45-51 | succeeds iff the address resolves, the employee number parses as an int and the registry has that person; otherwise the number-format or "Person not found in automation DB" message |
| QRCodeController.TokenNamesCanonicalEmployeeNumber | src/main/java/com/personeltakip/controller/QRCodeController.java:54-56 | the token names the employee by the decimal text of the registry's number, which parses back to the requested number |
| QRCodeController.QRCodeController.GenerateQRCode | src/main/java/com/personeltakip/controller/QRCodeController.java:42-64 | a failure before generation is 500 "Error generating QR code: " plus the message, and creates no token. Otherwise 200 with the token the service issues for the registry person's numbers as text, their names and the client address |
| QRCodeController.QRCodeController.ValidateQRToken | src/main/java/com/personeltakip/controller/QRCodeController.java:88-92 | exactly the token service's validity test |
| JavaText.TrimIdempotent | src/main/java/com/personeltakip/controller/MobileAuthController.java:55-56 | trimming twice is trimming once, and a text and its trim are blank alike |
| JavaText.BlankIffAllTrimmable | src/main/java/com/personeltakip/service/AuthService.java:42 | `trim().isEmpty()` holds iff every character is at most U+0020 |
| JavaText.TrimKeepsNoComma | src/main/java/com/personeltakip/controller/QRCodeController.java:100 | trimming a comma-free text keeps it comma-free |
| JavaText.SplitFirstElement | src/main/java/com/personeltakip/controller/QRCodeController.java:100 | `split(",")` is empty iff the text is a non-empty run of commas; otherwise its first piece is the text before the first comma |
| JavaText.ParseDecimal | src/main/java/com/personeltakip/controller/MobileAuthController.java:55-56 | a parsed value lies in the parser's range, and the text starts with a digit or a sign |
| JavaText.ParseToString | src/main/java/com/personeltakip/controller/QRCodeController.java:55 | parsing the decimal text of any number in the range gives the number back |
| JavaText.SixDigitCode | src/main/java/com/personeltakip/service/AuthService.java:75 | `%06d` of a value below 10^6 is exactly six digits and parses back to the value |
| JavaText.SixDigitCodeInjective | src/main/java/com/personeltakip/service/AuthService.java:75 | distinct random values give distinct codes |

## Left out

- QR image rendering (`generateQRCodeImage`, `generateQRCodeBase64` and the `/image` endpoint) is left out: it is zxing and PNG/Base64 library code.
- SmsService is left out because it is HTTP I/O. Dispatch is a ghost log of requested messages plus an `smsFailure` outcome parameter.
- Security, database and framework configuration is left out. So are the AuthController login and logout endpoints, Spring Security's authentication manager, session expiry and the UserDetailsService adapter. The security context is only an optional (authenticated, name) pair, and the HTTP session is only its `user` attribute.
- Password hashing is left out: BCrypt `encode` and `matches` are function parameters.
- The native SQL of the detailed-information queries is left out. The join with the phone table, `teltur='GSM'`, and the row multiplicity of the join are replaced by a partial map with at most one row per pair.
- Concurrency is left out: every operation is sequential and atomic. The check-then-act races on the open record, the token flags and the code cache are not modelled.
- The clock is read once per request. The source reads `LocalDateTime.now()` several times within one call, and those readings are collapsed into `now`.
- `Integer.parseInt` and `Long.parseLong` accept only ASCII digits here. Java also accepts other Unicode decimal digits.
- `LocalDateTime.parse` with ISO_LOCAL_DATE_TIME is an abstract partial function; its grammar is not modelled.
- Coordinates are reals. NaN and the other floating-point special values are not modelled.
- The token table's generated `id` column is not modelled; the unique token string is the key.
- The User entity is not part of this model. Its column constraints are unknown, so nothing stops two accounts from sharing a national ID, which `TwoSpellingsGiveTwoAccounts` exhibits.
- The sort order of records without a check-in time is a choice: they sort after every record that has one. The database's placement of NULLs in `ORDER BY ... DESC` is vendor-specific.
- The message of the exception for a non-unique finder result is a stand-in. Spring's exact wording is not reproduced.
- The registry's `tcKimlikNo` and `sicilNo` are non-null integers, as the non-null columns of the Person entity declare.
- All of an attendance record's columns except the employee number are nullable, including `status`. Records this model saves always have a status.
- `AttendanceStore.Update` requires the saved record's id to be stored. A JPA save of an unknown id would insert; no caller in the core does that.
- Entity setters on a loaded record are modelled as datatype updates followed by a save of the whole row. Aliasing between the loaded object and the persistence context is not modelled.
- The 500 catch-all of the mobile login is not modelled: no step of the modelled login can throw.
- The profile JSON object and the login bodies are records with one field per key rather than maps.
- Logging is left out: the slf4j logger calls in the services and controllers have no effect on state or answers.
- `String.format("%06d", n)` is modelled with ASCII digits. Java formats with the default locale, whose digits may differ.
- AuthService.InitiationRefusals: does not name the error for an unparsable number, a non-unique account lookup or a missing phone, because it covers only the order of the first refusals; `InitiationAccepts` states when none of these refusals happens.
- AuthService.CompletionRefusals: does not name the number-format errors that follow the code check, because `CompletionAccepts` already states that both numbers must parse.
- MobileAuthController.Login: its own contract gives only the status range and the meaning of 200, because the outcomes are stated in full by `LoginRefusals` and `LoginAcceptsRegistered`.
