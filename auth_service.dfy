/**
 * Enrollment and login against the local account table. Enrollment has two steps: the first
 * checks the employee against the master registry, caches a six-digit code under the national ID
 * exactly as typed and sends it by SMS; the second checks the code and creates the account. The
 * first account ever created is the administrator.
 */
module AuthService {
  import opened Wrappers
  import opened JavaText
  import opened PersonRepository
  import opened UserRepository

  /** The service's rejections, each with the message of its exception. */
  datatype AuthError =
    | NationalIdEmpty
    | EmployeeNumberEmpty
    | SmsCodeEmpty
    | PasswordEmpty
    | NumberFormat(input: string)
    | PersonNotFound
    | AlreadyRegistered
    | PhoneNotFound
    | InvalidSmsCode
    | UserNotFound
    | AccountNotFound
    | InvalidCredentials
    | NonUniqueUser(count: nat)
    | SmsFailed(reason: string)
  {
    function Message(): string {
      match this
      case NationalIdEmpty => "National ID cannot be empty."
      case EmployeeNumberEmpty => "Employee number cannot be empty."
      case SmsCodeEmpty => "SMS code cannot be empty."
      case PasswordEmpty => "Password cannot be empty."
      case NumberFormat(input) => NumberFormatMessage(input)
      case PersonNotFound => "Person with this National ID and Employee Number not found in the master database."
      case AlreadyRegistered => "User is already registered."
      case PhoneNotFound => "Phone number not found for this user."
      case InvalidSmsCode => "Invalid or expired SMS code."
      case UserNotFound => "User not found."
      case AccountNotFound => "User not found"
      case InvalidCredentials => "Invalid credentials."
      case NonUniqueUser(count) => "query did not return a unique result: " + ToString(count)
      case SmsFailed(reason) => reason
    }
  }

  const LoginSuccessMessage: string := "Login Successful! (JWT token would be here)"

  /**
   * The phone number of a registry row: the `cepTel` column when it is present and not blank,
   * otherwise the `CEPTEL` column when that is; None when neither is.
   */
  function PhoneNumber(details: map<string, string>): (p: Option<string>)
    ensures p.None? <==> ("cepTel" !in details || IsBlank(details["cepTel"]))
                         && ("CEPTEL" !in details || IsBlank(details["CEPTEL"]))
    ensures p.Some? ==> !IsBlank(p.value)
    ensures "cepTel" in details && !IsBlank(details["cepTel"]) ==> p == Some(details["cepTel"])
    ensures p.Some? && !("cepTel" in details && !IsBlank(details["cepTel"])) ==> p == Some(details["CEPTEL"])
  {
    if "cepTel" in details && !IsBlank(details["cepTel"]) then Some(details["cepTel"])
    else if "CEPTEL" in details && !IsBlank(details["CEPTEL"]) then Some(details["CEPTEL"])
    else None
  }

  /**
   * The guards of `initiateRegistration`, in order: blank inputs, unparsable numbers, the pair
   * unknown to the registry, an existing account for the national ID, no phone number. On
   * success, the phone the code goes to.
   */
  function InitiationCheck(personRepository: Registry, users: seq<User>, nationalId: Option<string>,
                           employeeNumber: Option<string>): (r: Result<string, AuthError>)
    ensures r.Ok? ==> nationalId.Some? && ParseLong(nationalId.value).Some? && !IsBlank(r.value)
  {
    if Missing(nationalId) then Err(NationalIdEmpty)
    else if Missing(employeeNumber) then Err(EmployeeNumberEmpty)
    else match ParseLong(nationalId.value)
      case None => Err(NumberFormat(nationalId.value))
      case Some(tckiml) => RegistryCheck(personRepository, users, tckiml, employeeNumber.value)
  }

  /** The guards of the first step that follow the parse of the national ID. */
  function RegistryCheck(personRepository: Registry, users: seq<User>, tckiml: int, employeeNumber: string)
    : (r: Result<string, AuthError>)
    ensures r.Ok? ==> !IsBlank(r.value)
  {
    match ParseInt(employeeNumber)
    case None => Err(NumberFormat(employeeNumber))
    case Some(psicno) =>
      match FindDetailedPersonInfo(personRepository, tckiml, psicno)
      case None => Err(PersonNotFound)
      case Some(details) =>
        match FindByTckiml(users, tckiml)
        case Found(_) => Err(AlreadyRegistered)
        case NonUnique(count) => Err(NonUniqueUser(count))
        case NotFound =>
          match PhoneNumber(details)
          case None => Err(PhoneNotFound)
          case Some(phone) => Ok(phone)
  }

  /**
   * When the first step accepts a request: both numbers parse, the registry knows the pair, no
   * account has the national ID and a phone number is on file.
   */
  lemma InitiationAccepts(personRepository: Registry, users: seq<User>, nationalId: Option<string>,
                          employeeNumber: Option<string>)
    ensures InitiationCheck(personRepository, users, nationalId, employeeNumber).Ok? <==>
      !Missing(nationalId) && !Missing(employeeNumber)
      && ParseLong(nationalId.value).Some? && ParseInt(employeeNumber.value).Some?
      && FindDetailedPersonInfo(personRepository, ParseLong(nationalId.value).value,
                                ParseInt(employeeNumber.value).value).Some?
      && (forall u :: u in users ==> u.tckiml != ParseLong(nationalId.value).value)
      && PhoneNumber(FindDetailedPersonInfo(personRepository, ParseLong(nationalId.value).value,
                                            ParseInt(employeeNumber.value).value).value).Some?
  {
  }

  /**
   * How the first step refuses: blank inputs first, in argument order; as unknown exactly when
   * the registry lacks the parsed pair; as already registered only when an account has the
   * national ID.
   */
  lemma InitiationRefusals(personRepository: Registry, users: seq<User>, nationalId: Option<string>,
                           employeeNumber: Option<string>)
    ensures var r := InitiationCheck(personRepository, users, nationalId, employeeNumber);
      && (Missing(nationalId) ==> r == Err(NationalIdEmpty))
      && (!Missing(nationalId) && Missing(employeeNumber) ==> r == Err(EmployeeNumberEmpty))
      && (r == Err(PersonNotFound) <==>
        !Missing(nationalId) && !Missing(employeeNumber)
        && ParseLong(nationalId.value).Some? && ParseInt(employeeNumber.value).Some?
        && FindDetailedPersonInfo(personRepository, ParseLong(nationalId.value).value,
                                  ParseInt(employeeNumber.value).value).None?)
      && (r == Err(AlreadyRegistered) ==>
        !Missing(nationalId) && !Missing(employeeNumber)
        && ParseLong(nationalId.value).Some? && ParseInt(employeeNumber.value).Some?
        && FindDetailedPersonInfo(personRepository, ParseLong(nationalId.value).value,
                                  ParseInt(employeeNumber.value).value).Some?
        && exists u :: u in users && u.tckiml == ParseLong(nationalId.value).value)
  {
  }

  /**
   * The guards of `completeRegistration`, in order: blank inputs, no cached code for the
   * national ID text or a different one, unparsable numbers. On success, the parsed national ID
   * and employee number of the account to create.
   */
  function CompletionCheck(codes: map<string, string>, nationalId: Option<string>, employeeNumber: Option<string>,
                           smsCode: Option<string>, password: Option<string>): (r: Result<(int, int), AuthError>)
    ensures r.Ok? ==> nationalId.Some? && nationalId.value in codes && smsCode.Some? && password.Some?
  {
    if Missing(nationalId) then Err(NationalIdEmpty)
    else if Missing(employeeNumber) then Err(EmployeeNumberEmpty)
    else if Missing(smsCode) then Err(SmsCodeEmpty)
    else if Missing(password) then Err(PasswordEmpty)
    else if nationalId.value !in codes || codes[nationalId.value] != smsCode.value then Err(InvalidSmsCode)
    else match ParseLong(nationalId.value)
      case None => Err(NumberFormat(nationalId.value))
      case Some(tckiml) =>
        match ParseInt(employeeNumber.value)
        case None => Err(NumberFormat(employeeNumber.value))
        case Some(psicno) => Ok((tckiml, psicno))
  }

  /** The refusals of `completeRegistration`: each blank input in turn, then a missing or different code. */
  lemma CompletionRefusals(codes: map<string, string>, nationalId: Option<string>, employeeNumber: Option<string>,
                           smsCode: Option<string>, password: Option<string>)
    ensures var r := CompletionCheck(codes, nationalId, employeeNumber, smsCode, password);
      && (Missing(nationalId) ==> r == Err(NationalIdEmpty))
      && (!Missing(nationalId) && Missing(employeeNumber) ==> r == Err(EmployeeNumberEmpty))
      && (!Missing(nationalId) && !Missing(employeeNumber) && Missing(smsCode) ==> r == Err(SmsCodeEmpty))
      && (!Missing(nationalId) && !Missing(employeeNumber) && !Missing(smsCode) && Missing(password)
          ==> r == Err(PasswordEmpty))
      && (!Missing(nationalId) && !Missing(employeeNumber) && !Missing(smsCode) && !Missing(password)
          && (nationalId.value !in codes || codes[nationalId.value] != smsCode.value)
          ==> r == Err(InvalidSmsCode))
  {
  }

  /**
   * `completeRegistration` goes ahead exactly when every input is present and not blank, the
   * cached code for the national ID text is the one given, and both numbers parse; the account
   * gets the parsed national ID and employee number.
   */
  lemma CompletionAccepts(codes: map<string, string>, nationalId: Option<string>, employeeNumber: Option<string>,
                          smsCode: Option<string>, password: Option<string>)
    ensures var r := CompletionCheck(codes, nationalId, employeeNumber, smsCode, password);
      && (r.Ok? <==>
            !Missing(nationalId) && !Missing(employeeNumber) && !Missing(smsCode) && !Missing(password)
            && nationalId.value in codes && codes[nationalId.value] == smsCode.value
            && ParseLong(nationalId.value).Some? && ParseInt(employeeNumber.value).Some?)
      && (r.Ok? ==> r.value == (ParseLong(nationalId.value).value, ParseInt(employeeNumber.value).value))
  {
  }

  /** Once a completion removed the code, the same request is refused as an invalid code. */
  lemma CodeIsSingleUse(codes: map<string, string>, nationalId: Option<string>, employeeNumber: Option<string>,
                        smsCode: Option<string>, password: Option<string>)
    requires CompletionCheck(codes, nationalId, employeeNumber, smsCode, password).Ok?
    ensures CompletionCheck(codes - {nationalId.value}, nationalId, employeeNumber, smsCode, password)
            == Err(InvalidSmsCode)
  {
  }

  /**
   * The cache is keyed by the national ID as typed while accounts are keyed by its numeric value,
   * and the second step does not look at the account table. So two spellings of one number (say
   * "0123" and "123") both pass the first step (`SameNumberSameInitiation`) and get a code each;
   * completing one leaves the outcome for the other unchanged (`OtherSpellingStillCompletes`); and the two
   * accounts created share one national ID, for which the account finder then reports a non-unique
   * result (`TwoSpellingsGiveTwoAccounts`).
   */
  lemma OtherSpellingStillCompletes(codes: map<string, string>, a: string, nationalId: Option<string>,
                                    employeeNumber: Option<string>, smsCode: Option<string>, password: Option<string>)
    requires nationalId != Some(a)
    ensures CompletionCheck(codes - {a}, nationalId, employeeNumber, smsCode, password)
            == CompletionCheck(codes, nationalId, employeeNumber, smsCode, password)
  {
  }

  lemma TwoSpellingsGiveTwoAccounts(users: seq<User>, a: string, b: string, psicno: int, hash: string,
                                    idA: int, idB: int, roleA: Role, roleB: Role)
    requires a != b && ParseLong(a).Some? && ParseLong(a) == ParseLong(b)
    ensures FindByTckiml(users + [User(idA, ParseLong(a).value, a, psicno, hash, roleA),
                                  User(idB, ParseLong(b).value, b, psicno, hash, roleB)],
                         ParseLong(a).value).NonUnique?
  {
    var t := ParseLong(a).value;
    var x := User(idA, t, a, psicno, hash, roleA);
    var y := User(idB, t, b, psicno, hash, roleB);
    var all := users + [x, y];
    assert all[|users|] == x && all[|users| + 1] == y;
    TwoMatchesAreNonUnique(all, x, y);
  }

  /**
   * The first step depends on the national ID only through its numeric value: two spellings of
   * one number are accepted or refused alike, and are sent the code to the same phone.
   */
  lemma SameNumberSameInitiation(personRepository: Registry, users: seq<User>, a: string, b: string,
                                 employeeNumber: Option<string>)
    requires ParseLong(a).Some? && ParseLong(a) == ParseLong(b) && !IsBlank(a) && !IsBlank(b)
    ensures InitiationCheck(personRepository, users, Some(a), employeeNumber)
            == InitiationCheck(personRepository, users, Some(b), employeeNumber)
  {
  }

  /** "0123" and "123" are two such spellings. */
  lemma LeadingZeroSpelling()
    ensures "0123" != "123" && ParseLong("0123") == ParseLong("123") == Some(123)
    ensures !IsBlank("0123") && !IsBlank("123")
  {
    ParsesWithLeadingZero();
    ParsesPlain();
    NotBlankWhenEndsVisible("0123");
    NotBlankWhenEndsVisible("123");
  }

  lemma ParsesWithLeadingZero()
    ensures ParseLong("0123") == Some(123)
  {
    assert DecimalValue("0123") == 123 by {
      assert "0123"[..3] == "012" && "012"[..2] == "01" && "01"[..1] == "0";
    }
  }

  lemma ParsesPlain()
    ensures ParseLong("123") == Some(123)
  {
    assert DecimalValue("123") == 123 by {
      assert "123"[..2] == "12" && "12"[..1] == "1";
    }
  }

  lemma NotBlankWhenEndsVisible(s: string)
    requires s != [] && !IsTrimmable(s[0])
    ensures !IsBlank(s)
  {
    BlankIffAllTrimmable(s);
  }

  /** The first account is the administrator and no other is. */
  ghost predicate RolesWellFormed(users: seq<User>) {
    forall i :: 0 <= i < |users| ==> (users[i].role == ROLE_ADMIN <==> i == 0)
  }

  /** Every account id is below the next one the table hands out. */
  ghost predicate IdsBelow(users: seq<User>, nextUserId: int) {
    forall i :: 0 <= i < |users| ==> users[i].id < nextUserId
  }

  /** Every cached code is six digits, filed under a national ID text that parses as a number. */
  ghost predicate CodesWellFormed(codes: map<string, string>) {
    forall k :: k in codes ==> ParseLong(k).Some? && |codes[k]| == 6 && AllDigits(codes[k])
  }

  /** Appending an account with the role enrollment gives it keeps the role and id invariants. */
  lemma AppendKeepsAccountInvariants(users: seq<User>, nextUserId: int, u: User)
    requires RolesWellFormed(users) && IdsBelow(users, nextUserId)
    requires u.role == (if |users| == 0 then ROLE_ADMIN else ROLE_USER) && u.id == nextUserId
    ensures RolesWellFormed(users + [u]) && IdsBelow(users + [u], nextUserId + 1)
  {
    assert forall i :: 0 <= i < |users| ==> (users + [u])[i] == users[i];
  }

  /** Caching a six-digit code under a parsable key, or dropping a key, keeps the cache invariant. */
  lemma CacheUpdatesKeepCodesWellFormed(codes: map<string, string>, k: string, v: string)
    requires CodesWellFormed(codes)
    ensures ParseLong(k).Some? && |v| == 6 && AllDigits(v) ==> CodesWellFormed(codes[k := v])
    ensures CodesWellFormed(codes - {k})
  {
  }

  class AuthService {
    /** The master registry (`personRepository`), read only. */
    const personRepository: Registry
    /** The in-memory code cache, national ID text to code. */
    var smsVerificationCodes: map<string, string>
    /** The account table (`userRepository`) in creation order, and the next id it hands out. */
    var users: seq<User>
    var nextUserId: int
    /** Every SMS the service asked to send: recipients and text. */
    ghost var smsRequests: seq<(seq<string>, string)>

    ghost predicate Valid()
      reads this
    {
      RolesWellFormed(users) && IdsBelow(users, nextUserId) && CodesWellFormed(smsVerificationCodes)
    }

    constructor (personRepository: Registry)
      ensures this.personRepository == personRepository
      ensures smsVerificationCodes == map[] && users == [] && smsRequests == []
      ensures Valid()
    {
      this.personRepository := personRepository;
      smsVerificationCodes := map[];
      users := [];
      nextUserId := 1;
      smsRequests := [];
    }

    /**
     * `initiateRegistration`. `random` is the value `nextInt(999999)` drew; `smsFailure` the
     * message the SMS service failed with, if it did. A rejected request caches and sends
     * nothing. Otherwise the code, `random` as six digits, replaces any earlier code for that
     * national ID text, and only then is the SMS requested, so a failed send leaves it cached.
     */
    method InitiateRegistration(nationalId: Option<string>, employeeNumber: Option<string>, random: int,
                                smsFailure: Option<string>)
      returns (result: Result<(), AuthError>)
      requires Valid()
      requires 0 <= random < 999999
      modifies this`smsVerificationCodes, this`smsRequests
      ensures Valid()
      ensures match InitiationCheck(personRepository, users, nationalId, employeeNumber)
        case Err(e) =>
          result == Err(e) && smsVerificationCodes == old(smsVerificationCodes) && smsRequests == old(smsRequests)
        case Ok(phone) =>
          smsVerificationCodes == old(smsVerificationCodes)[nationalId.value := ZeroPadded(random, 6)]
          && smsRequests == old(smsRequests) + [([phone], ZeroPadded(random, 6))]
          && result == if smsFailure.Some? then Err(SmsFailed(smsFailure.value)) else Ok(())
    {
      var check := InitiationCheck(personRepository, users, nationalId, employeeNumber);
      if check.Err? {
        return Err(check.error);
      }
      var phoneNumber := check.value;
      var smsCode := ZeroPadded(random, 6);
      SixDigitCode(random);
      CacheUpdatesKeepCodesWellFormed(smsVerificationCodes, nationalId.value, smsCode);
      smsVerificationCodes := smsVerificationCodes[nationalId.value := smsCode];
      smsRequests := smsRequests + [([phoneNumber], smsCode)];
      if smsFailure.Some? {
        return Err(SmsFailed(smsFailure.value));
      }
      return Ok(());
    }

    /**
     * `completeRegistration`. `encode` is the password encoder. A rejected request creates no
     * account and keeps the cache. Otherwise one account is appended, ADMIN exactly when the
     * table was empty, and the national ID's code is removed.
     */
    method CompleteRegistration(nationalId: Option<string>, employeeNumber: Option<string>, smsCode: Option<string>,
                                password: Option<string>, encode: string -> string)
      returns (result: Result<User, AuthError>)
      requires Valid()
      modifies this`smsVerificationCodes, this`users, this`nextUserId
      ensures Valid()
      ensures match CompletionCheck(old(smsVerificationCodes), nationalId, employeeNumber, smsCode, password)
        case Err(e) =>
          result == Err(e) && smsVerificationCodes == old(smsVerificationCodes) && users == old(users)
          && nextUserId == old(nextUserId)
        case Ok(ids) =>
          var role := if |old(users)| == 0 then ROLE_ADMIN else ROLE_USER;
          result == Ok(User(old(nextUserId), ids.0, nationalId.value, ids.1, encode(password.value), role))
          && users == old(users) + [result.value]
          && smsVerificationCodes == old(smsVerificationCodes) - {nationalId.value}
          && nextUserId == old(nextUserId) + 1
    {
      var check := CompletionCheck(smsVerificationCodes, nationalId, employeeNumber, smsCode, password);
      if check.Err? {
        return Err(check.error);
      }
      var isFirstUser := |users| == 0;
      var userRole := if isFirstUser then ROLE_ADMIN else ROLE_USER;
      var newUser := User(nextUserId, check.value.0, nationalId.value, check.value.1, encode(password.value), userRole);
      AppendKeepsAccountInvariants(users, nextUserId, newUser);
      CacheUpdatesKeepCodesWellFormed(smsVerificationCodes, nationalId.value, "");
      users := users + [newUser];
      nextUserId := nextUserId + 1;
      smsVerificationCodes := smsVerificationCodes - {nationalId.value};
      return Ok(newUser);
    }

    /**
     * `login`, with `matches` the encoder's check of a raw password against a stored hash:
     * blank inputs, an unparsable or unknown national ID and a wrong password are refused.
     */
    function Login(nationalId: Option<string>, password: Option<string>, matches: (string, string) -> bool)
      : (r: Result<string, AuthError>)
      reads this
      ensures Missing(nationalId) ==> r == Err(NationalIdEmpty)
      ensures !Missing(nationalId) && Missing(password) ==> r == Err(PasswordEmpty)
      ensures r.Ok? <==>
        !Missing(nationalId) && !Missing(password) && ParseLong(nationalId.value).Some?
        && FindByTckiml(users, ParseLong(nationalId.value).value).Found?
        && matches(password.value, FindByTckiml(users, ParseLong(nationalId.value).value).value.password)
      ensures r.Ok? ==> r.value == LoginSuccessMessage
      ensures r == Err(UserNotFound) <==>
        !Missing(nationalId) && !Missing(password) && ParseLong(nationalId.value).Some?
        && forall u :: u in users ==> u.tckiml != ParseLong(nationalId.value).value
    {
      if Missing(nationalId) then Err(NationalIdEmpty)
      else if Missing(password) then Err(PasswordEmpty)
      else match ParseLong(nationalId.value)
        case None => Err(NumberFormat(nationalId.value))
        case Some(tckiml) =>
          match FindByTckiml(users, tckiml)
          case NotFound => Err(UserNotFound)
          case NonUnique(count) => Err(NonUniqueUser(count))
          case Found(user) =>
            if !matches(password.value, user.password) then Err(InvalidCredentials)
            else Ok(LoginSuccessMessage)
    }

    /** `getUserByNationalId`: the one account with that national ID, or an exception. */
    function GetUserByNationalId(nationalId: string): (r: Result<User, AuthError>)
      reads this
      ensures r.Ok? <==> ParseLong(nationalId).Some? && FindByTckiml(users, ParseLong(nationalId).value).Found?
      ensures r.Ok? ==> r.value in users && r.value.tckiml == ParseLong(nationalId).value
      ensures r == Err(AccountNotFound) <==>
        ParseLong(nationalId).Some? && forall u :: u in users ==> u.tckiml != ParseLong(nationalId).value
      ensures ParseLong(nationalId).None? ==> r == Err(NumberFormat(nationalId))
    {
      match ParseLong(nationalId)
      case None => Err(NumberFormat(nationalId))
      case Some(tckiml) =>
        match FindByTckiml(users, tckiml)
        case NotFound => Err(AccountNotFound)
        case NonUnique(count) => Err(NonUniqueUser(count))
        case Found(user) => Ok(user)
    }
  }

  /**
   * An account just created for a national ID nobody else has can log in with its password:
   * `CompleteRegistration` stores `encode(password)` as the newest account's hash, and the
   * encoder accepts every password against its own encoding.
   */
  lemma RegisteredUserCanLogIn(s: AuthService, nationalId: string, password: string,
                               encode: string -> string, matches: (string, string) -> bool)
    requires !IsBlank(nationalId) && !IsBlank(password) && ParseLong(nationalId).Some?
    requires |s.users| > 0
    requires s.users[|s.users| - 1].tckiml == ParseLong(nationalId).value
    requires forall i :: 0 <= i < |s.users| - 1 ==> s.users[i].tckiml != ParseLong(nationalId).value
    requires s.users[|s.users| - 1].password == encode(password)
    requires forall p :: matches(p, encode(p))
    ensures s.Login(Some(nationalId), Some(password), matches) == Ok(LoginSuccessMessage)
  {
    var users, last := s.users, s.users[|s.users| - 1];
    FilterSingle(users, (u: User) => u.tckiml == last.tckiml, |users| - 1);
    assert FindByTckiml(users, last.tckiml) == Found(last);
  }
}
