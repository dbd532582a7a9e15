/**
 * The mobile login endpoint: an employee identifies with employee number and national ID, and
 * is let in when the master registry has a person with both. The local account table plays no
 * part and nothing is written.
 */
module MobileAuthController {
  import opened Wrappers
  import opened JavaText
  import opened PersonRepository

  /** The request body: both fields are text and may be absent; the body itself may be absent. */
  datatype LoginRequest = LoginRequest(psicno: Option<string>, tckiml: Option<string>)

  /** `{"status": "error", "error": …}` or `{"status": "ok", "psicno": …, "tckiml": …, "firstName": …, "lastName": …}`. */
  datatype LoginBody =
    | LoginError(error: string)
    | LoginOk(psicno: int, tckiml: int, firstName: string, lastName: string)

  datatype LoginResponse = LoginResponse(status: int, body: LoginBody)

  const RequiredMessage: string := "psicno and tckiml are required"
  const NotNumericMessage: string := "Invalid format for psicno or tckiml. Must be numeric."
  const UnknownPersonMessage: string :=
    "Invalid credentials. Person not found with provided TC Kimlik No and Sicil Numarası."

  /** Both identifiers are present and not blank. */
  predicate Complete(req: Option<LoginRequest>) {
    req.Some? && !Missing(req.value.psicno) && !Missing(req.value.tckiml)
  }

  /** Both identifiers parse after trimming: the employee number as an int, the national ID as a long. */
  predicate Numeric(req: Option<LoginRequest>)
    requires Complete(req)
  {
    ParseInt(Trim(req.value.psicno.value)).Some? && ParseLong(Trim(req.value.tckiml.value)).Some?
  }

  /** The registry has a person with both parsed identifiers. */
  ghost predicate Registered(personRepository: Registry, req: Option<LoginRequest>)
    requires Complete(req) && Numeric(req)
  {
    exists p :: p in personRepository.persons
                && p.sicilNo == ParseInt(Trim(req.value.psicno.value)).value
                && p.tcKimlikNo == ParseLong(Trim(req.value.tckiml.value)).value
  }

  /**
   * `login` once both identifiers are known to be present, given as their trimmed texts: 400
   * when either is empty, then 400 when either is not numeric, 401 when the registry has no
   * such person, otherwise 200 with the person's identifiers and names (an absent name as "").
   */
  function LoginTrimmed(personRepository: Registry, psicno: string, tckiml: string): (r: LoginResponse)
    requires WellFormed(personRepository)
    ensures r.status in {200, 400, 401}
    ensures r.status == 200 <==> r.body.LoginOk?
  {
    if psicno == [] || tckiml == [] then LoginResponse(400, LoginError(RequiredMessage))
    else
      match (ParseInt(psicno), ParseLong(tckiml))
      case (Some(sicilNo), Some(tcKimlikNo)) =>
        (match FindBySicilNoAndTcKimlikNo(personRepository, sicilNo, tcKimlikNo)
         case None => LoginResponse(401, LoginError(UnknownPersonMessage))
         case Some(p) => LoginResponse(200, LoginOk(p.sicilNo, p.tcKimlikNo, p.adi.GetOr(""), p.soyadi.GetOr(""))))
      case _ => LoginResponse(400, LoginError(NotNumericMessage))
  }

  /**
   * `login`: an absent body or identifier is 400 like a blank one; the rest is decided on the
   * trimmed identifiers. `LoginRefusals` and `LoginAcceptsRegistered` state each outcome.
   */
  function Login(personRepository: Registry, req: Option<LoginRequest>): (r: LoginResponse)
    requires WellFormed(personRepository)
    ensures r.status in {200, 400, 401}
    ensures r.status == 200 <==> r.body.LoginOk?
  {
    if req.None? || req.value.psicno.None? || req.value.tckiml.None? then LoginResponse(400, LoginError(RequiredMessage))
    else LoginTrimmed(personRepository, Trim(req.value.psicno.value), Trim(req.value.tckiml.value))
  }

  /** The refusals: both 400 cases in their order, and 401 exactly for a person the registry lacks. */
  lemma LoginRefusals(personRepository: Registry, req: Option<LoginRequest>)
    requires WellFormed(personRepository)
    ensures var r := Login(personRepository, req);
      && (!Complete(req) ==> r == LoginResponse(400, LoginError(RequiredMessage)))
      && (Complete(req) && !Numeric(req) ==> r == LoginResponse(400, LoginError(NotNumericMessage)))
      && (r.status == 401 <==> Complete(req) && Numeric(req) && !Registered(personRepository, req))
      && (r.status == 401 ==> r.body == LoginError(UnknownPersonMessage))
  {
    if Complete(req) {
      var psicno, tckiml := Trim(req.value.psicno.value), Trim(req.value.tckiml.value);
      assert psicno != [] && tckiml != [];
    }
  }

  /** 200 exactly for a registered person, answering with that person's identifiers and names. */
  lemma LoginAcceptsRegistered(personRepository: Registry, req: Option<LoginRequest>)
    requires WellFormed(personRepository)
    ensures var r := Login(personRepository, req);
      && (r.status == 200 <==> Complete(req) && Numeric(req) && Registered(personRepository, req))
      && (r.status == 200 ==> exists p :: p in personRepository.persons
                                && Some(p.sicilNo) == ParseInt(Trim(req.value.psicno.value))
                                && Some(p.tcKimlikNo) == ParseLong(Trim(req.value.tckiml.value))
                                && r.body == LoginOk(p.sicilNo, p.tcKimlikNo, p.adi.GetOr(""), p.soyadi.GetOr("")))
  {
    if Complete(req) && Numeric(req) {
      var sicilNo := ParseInt(Trim(req.value.psicno.value)).value;
      var tcKimlikNo := ParseLong(Trim(req.value.tckiml.value)).value;
      var found := FindBySicilNoAndTcKimlikNo(personRepository, sicilNo, tcKimlikNo);
      assert Login(personRepository, req) == LoginTrimmed(personRepository, Trim(req.value.psicno.value),
                                                          Trim(req.value.tckiml.value));
      if found.Some? {
        var p := found.value;
        assert Login(personRepository, req)
               == LoginResponse(200, LoginOk(p.sicilNo, p.tcKimlikNo, p.adi.GetOr(""), p.soyadi.GetOr("")));
      }
    }
  }

  /** White space around either identifier makes no difference to the answer. */
  lemma LoginIgnoresSurroundingBlanks(personRepository: Registry, psicno: string, tckiml: string)
    requires WellFormed(personRepository)
    ensures Login(personRepository, Some(LoginRequest(Some(psicno), Some(tckiml))))
            == Login(personRepository, Some(LoginRequest(Some(Trim(psicno)), Some(Trim(tckiml)))))
  {
    TrimIdempotent(psicno);
    TrimIdempotent(tckiml);
  }

  /**
   * Every person of the registry whose identifiers fit the parsers can log in with the decimal
   * text of those identifiers, and gets back exactly its own identifiers and names.
   */
  lemma RegisteredPersonLogsIn(personRepository: Registry, p: Person)
    requires WellFormed(personRepository) && p in personRepository.persons
    requires IntMin <= p.sicilNo <= IntMax && LongMin <= p.tcKimlikNo <= LongMax
    ensures Login(personRepository, Some(LoginRequest(Some(ToString(p.sicilNo)), Some(ToString(p.tcKimlikNo)))))
            == LoginResponse(200, LoginOk(p.sicilNo, p.tcKimlikNo, p.adi.GetOr(""), p.soyadi.GetOr("")))
  {
    ToStringIsTrimmed(p.sicilNo);
    ToStringIsTrimmed(p.tcKimlikNo);
    ParseToString(p.sicilNo, IntMin, IntMax);
    ParseToString(p.tcKimlikNo, LongMin, LongMax);
    var found := FindBySicilNo(personRepository, p.sicilNo);
    assert found == Some(p);
  }
}
