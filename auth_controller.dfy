/**
 * The web enrollment endpoints and the "who am I" endpoint. Enrollment maps every rejection of
 * the service to 400 with its message. The current user comes from the HTTP session or, for an
 * authenticated principal, from the account table; the profile adds the person's names from
 * the master registry when it can find the person.
 */
module AuthController {
  import opened Wrappers
  import opened JavaText
  import opened PersonRepository
  import opened UserRepository
  import opened AuthService

  datatype Response = Response(status: int, body: string)

  const CodeSentMessage: string := "SMS verification code sent."
  const RegisteredMessage: string := "User registered successfully."
  const NotAuthenticatedMessage: string := "Not authenticated"
  const AnonymousName: string := "anonymousUser"

  /** The security context's authentication, when there is one. */
  datatype Authentication = Authentication(authenticated: bool, name: string)

  /** The servlet session; only its `user` attribute is modelled. */
  class Session {
    var user: Option<User>

    constructor (user: Option<User>)
      ensures this.user == user
    {
      this.user := user;
    }
  }

  /** An authenticated principal other than Spring's anonymous one. */
  predicate IsPrincipal(authentication: Option<Authentication>) {
    authentication.Some? && authentication.value.authenticated && authentication.value.name != AnonymousName
  }

  /**
   * The person whose names the profile shows: the one with the account's employee number and
   * national ID; failing that, the one person with the account's national ID. When several
   * persons share that national ID the finder throws, and the profile goes without a person.
   */
  function PersonFor(personRepository: Registry, user: User): (r: Option<Person>)
    requires WellFormed(personRepository)
    ensures r.Some? ==> r.value in personRepository.persons && r.value.tcKimlikNo == user.tckiml
    ensures (exists p :: p in personRepository.persons && p.sicilNo == user.psicno && p.tcKimlikNo == user.tckiml)
            ==> r.Some? && r.value.sicilNo == user.psicno
    ensures r.None? <==> !FindByTcKimlikNo(personRepository, user.tckiml).Found?
                         && !(exists p :: p in personRepository.persons && p.sicilNo == user.psicno
                                          && p.tcKimlikNo == user.tckiml)
  {
    match FindBySicilNoAndTcKimlikNo(personRepository, user.psicno, user.tckiml)
    case Some(p) => Some(p)
    case None =>
      match FindByTcKimlikNo(personRepository, user.tckiml)
      case Found(p) => Some(p)
      case _ => None
  }

  /**
   * A person found by the national ID alone, because the employee numbers differ, is the profile's
   * person when no one else shares that national ID.
   */
  lemma PersonForFallsBackOnSoleMatch(personRepository: Registry, user: User, p: Person)
    requires WellFormed(personRepository) && p in personRepository.persons && p.tcKimlikNo == user.tckiml
    requires forall q :: q in personRepository.persons && q.tcKimlikNo == user.tckiml ==> q == p
    ensures PersonFor(personRepository, user) == Some(p)
  {
    SoleNationalIdMatchIsFound(personRepository, user.tckiml, p);
  }

  /**
   * The full name: the first name as stored, a space, and the surname trimmed (absent names as
   * ""). The part after the space is a stretch of the surname with only white space cut from
   * either end, and it neither starts nor ends with white space, which leaves `trim` as its
   * only possible value.
   */
  function FullName(adi: Option<string>, soyadi: Option<string>): (r: string)
    ensures |r| > |adi.GetOr("")| && r[..|adi.GetOr("")|] == adi.GetOr("") && r[|adi.GetOr("")|] == ' '
    ensures var s := soyadi.GetOr("");
            exists i, j :: 0 <= i <= j <= |s| && r[|adi.GetOr("")| + 1..] == s[i..j]
                        && (forall k :: 0 <= k < i ==> IsTrimmable(s[k]))
                        && (forall k :: j <= k < |s| ==> IsTrimmable(s[k]))
    ensures var surname := r[|adi.GetOr("")| + 1..];
            surname == [] || (!IsTrimmable(surname[0]) && !IsTrimmable(surname[|surname| - 1]))
  {
    var first := adi.GetOr("");
    var r := first + " " + Trim(soyadi.GetOr(""));
    TrimIsInfix(soyadi.GetOr(""));
    assert r[|first| + 1..] == Trim(soyadi.GetOr(""));
    r
  }

  /** Trimming the surname beforehand changes nothing: the full name trims it anyway. */
  lemma FullNameIgnoresSurnameBlanks(adi: Option<string>, soyadi: string)
    ensures FullName(adi, Some(Trim(soyadi))) == FullName(adi, Some(soyadi))
  {
    TrimIdempotent(soyadi);
  }

  /**
   * The profile `getCurrentUser` answers with, a JSON object with these seven keys: the
   * account's national ID, username, role and employee number, and the person's names.
   */
  datatype Profile = Profile(nationalId: int, username: string, role: Role, employeeNumber: int,
                             firstName: string, lastName: string, fullName: string)

  /**
   * The profile of an account: the person's names when `PersonFor` finds one (an absent name
   * as ""), otherwise empty names and the username as the full name.
   */
  function ProfileOf(personRepository: Registry, user: User): (m: Profile)
    requires WellFormed(personRepository)
    ensures m.nationalId == user.tckiml && m.username == user.username && m.role == user.role
            && m.employeeNumber == user.psicno
    ensures match PersonFor(personRepository, user)
      case Some(p) =>
        m.firstName == p.adi.GetOr("") && m.lastName == p.soyadi.GetOr("") && m.fullName == FullName(p.adi, p.soyadi)
      case None => m.firstName == "" && m.lastName == "" && m.fullName == user.username
  {
    match PersonFor(personRepository, user)
    case Some(p) =>
      Profile(user.tckiml, user.username, user.role, user.psicno, p.adi.GetOr(""), p.soyadi.GetOr(""),
              FullName(p.adi, p.soyadi))
    case None => Profile(user.tckiml, user.username, user.role, user.psicno, "", "", user.username)
  }

  /** The answer of `getCurrentUser`: 200 with the profile, or an error status with a message. */
  datatype CurrentUserResponse = ProfileResponse(profile: Profile) | ErrorResponse(status: int, message: string)

  class AuthController {
    const authService: AuthService
    const personRepository: Registry

    ghost predicate Valid()
      reads this, authService
    {
      authService.Valid() && WellFormed(personRepository) && personRepository == authService.personRepository
    }

    /** Both the controller and its service are given the one person repository. */
    constructor (authService: AuthService, personRepository: Registry)
      requires authService.Valid() && WellFormed(personRepository) && personRepository == authService.personRepository
      ensures this.authService == authService && this.personRepository == personRepository
      ensures Valid()
    {
      this.authService := authService;
      this.personRepository := personRepository;
    }

    /**
     * `registerUser`: 200 once the code was sent; any rejection of the service, a failed SMS
     * included, is 400 with its message. The cache and the SMS log change as the service says.
     */
    method RegisterUser(nationalId: Option<string>, employeeNumber: Option<string>, random: int,
                        smsFailure: Option<string>)
      returns (response: Response)
      requires Valid()
      requires 0 <= random < 999999
      modifies authService`smsVerificationCodes, authService`smsRequests
      ensures Valid()
      ensures match InitiationCheck(authService.personRepository, old(authService.users), nationalId, employeeNumber)
        case Err(e) =>
          response == Response(400, e.Message())
          && authService.smsVerificationCodes == old(authService.smsVerificationCodes)
          && authService.smsRequests == old(authService.smsRequests)
        case Ok(phone) =>
          response == (if smsFailure.Some? then Response(400, smsFailure.value) else Response(200, CodeSentMessage))
          && authService.smsVerificationCodes
             == old(authService.smsVerificationCodes)[nationalId.value := ZeroPadded(random, 6)]
          && authService.smsRequests == old(authService.smsRequests) + [([phone], ZeroPadded(random, 6))]
    {
      ghost var check := InitiationCheck(authService.personRepository, authService.users, nationalId, employeeNumber);
      var result := authService.InitiateRegistration(nationalId, employeeNumber, random, smsFailure);
      match result
      case Err(e) =>
        if check.Ok? {
          assert e == SmsFailed(smsFailure.value) && e.Message() == smsFailure.value;
        }
        response := Response(400, e.Message());
      case Ok(_) =>
        response := Response(200, CodeSentMessage);
    }

    /**
     * `verifyAndCreateUser`: 200 once the account exists; any rejection of the service is 400
     * with its message. The account table and the cache change as the service says.
     */
    method VerifyAndCreateUser(nationalId: Option<string>, employeeNumber: Option<string>, smsCode: Option<string>,
                               password: Option<string>, encode: string -> string)
      returns (response: Response)
      requires Valid()
      modifies authService`smsVerificationCodes, authService`users, authService`nextUserId
      ensures Valid()
      ensures match CompletionCheck(old(authService.smsVerificationCodes), nationalId, employeeNumber, smsCode, password)
        case Err(e) =>
          response == Response(400, e.Message())
          && authService.smsVerificationCodes == old(authService.smsVerificationCodes)
          && authService.users == old(authService.users) && authService.nextUserId == old(authService.nextUserId)
        case Ok(ids) =>
          var role := if |old(authService.users)| == 0 then ROLE_ADMIN else ROLE_USER;
          response == Response(200, RegisteredMessage)
          && authService.users == old(authService.users)
             + [User(old(authService.nextUserId), ids.0, nationalId.value, ids.1, encode(password.value), role)]
          && authService.smsVerificationCodes == old(authService.smsVerificationCodes) - {nationalId.value}
          && authService.nextUserId == old(authService.nextUserId) + 1
    {
      var result := authService.CompleteRegistration(nationalId, employeeNumber, smsCode, password, encode);
      if result.Err? {
        return Response(400, result.error.Message());
      }
      return Response(200, RegisteredMessage);
    }

    /**
     * `getCurrentUser`. A user already in the session is always the one shown. Otherwise an
     * authenticated principal's account is loaded by national ID and put in the session, and a
     * failure to load it is 404 with its message; with neither, 401.
     */
    method GetCurrentUser(session: Session, authentication: Option<Authentication>)
      returns (response: CurrentUserResponse)
      requires Valid()
      modifies session
      ensures old(session.user).Some? ==>
        response == ProfileResponse(ProfileOf(personRepository, old(session.user).value))
        && session.user == old(session.user)
      ensures old(session.user).None? && !IsPrincipal(authentication) ==>
        response == ErrorResponse(401, NotAuthenticatedMessage) && session.user.None?
      ensures old(session.user).None? && IsPrincipal(authentication) ==>
        match authService.GetUserByNationalId(authentication.value.name)
        case Err(e) => response == ErrorResponse(404, e.Message()) && session.user.None?
        case Ok(u) => response == ProfileResponse(ProfileOf(personRepository, u)) && session.user == Some(u)
    {
      var user: Option<User> := None;
      if IsPrincipal(authentication) {
        user := session.user;
        if user.None? {
          var loaded := authService.GetUserByNationalId(authentication.value.name);
          if loaded.Err? {
            return ErrorResponse(404, loaded.error.Message());
          }
          user := Some(loaded.value);
          session.user := user;
        }
      }
      if user.None? {
        user := session.user;
      }
      if user.None? {
        return ErrorResponse(401, NotAuthenticatedMessage);
      }
      return ProfileResponse(ProfileOf(personRepository, user.value));
    }
  }
}
