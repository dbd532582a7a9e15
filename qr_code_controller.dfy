/**
 * The QR endpoints: generation for an employee number, which resolves the caller's IP address and
 * the registry person before asking the token service for a token, and validation of a token.
 * Every failure of generation turns into a 500 response carrying the failure's message.
 */
module QRCodeController {
  import opened Wrappers
  import opened JavaText
  import opened PersonRepository
  import opened QRCodeToken
  import opened QRCodeTokenRepository
  import opened QRCodeService

  /** The message of the exception thrown when `split` yields no piece to index. */
  const NoFirstPieceMessage: string := "Index 0 out of bounds for length 0"

  const PersonNotFoundMessage: string := "Person not found in automation DB"

  const GenerationErrorPrefix: string := "Error generating QR code: "

  datatype Response = Response(status: int, body: string)

  /**
   * `getClientIpAddress`: the remote address when there is no X-Forwarded-For header, otherwise
   * the header's first comma-separated piece, trimmed. A header of commas only has no first
   * piece, and indexing the empty result throws.
   */
  function ClientIpAddress(forwardedFor: Option<string>, remoteAddr: string): (r: Result<string, string>)
    ensures forwardedFor.None? ==> r == Ok(remoteAddr)
    ensures r.Err? ==> r.error == NoFirstPieceMessage
  {
    match forwardedFor
    case None => Ok(remoteAddr)
    case Some(header) =>
      var parts := SplitOnComma(header);
      if |parts| == 0 then Err(NoFirstPieceMessage) else Ok(Trim(parts[0]))
  }

  /**
   * With a header present: the address is the text before the first comma, trimmed (the whole
   * header trimmed when it has no comma), it never contains a comma, and the only failure is a
   * non-empty header made of commas alone.
   */
  lemma ClientIpAddressIsFirstHop(header: string, remoteAddr: string)
    ensures var r := ClientIpAddress(Some(header), remoteAddr);
      && (r.Err? <==> header != [] && AllCommas(header))
      && (r.Ok? ==> r.value == Trim(header[..IndexOfComma(header)]) && ',' !in r.value)
      && (',' !in header ==> r == Ok(Trim(header)))
  {
    SplitFirstElement(header);
    TrimKeepsNoComma(header[..IndexOfComma(header)]);
    if ',' !in header {
      assert IndexOfComma(header) == |header|;
      assert header[..|header|] == header;
    }
  }

  /**
   * The part of `generateQRCode` before the token service is called: the client address, the
   * employee number parsed as an int, the registry person with that number. On success, the
   * address and the person; otherwise the message of the exception.
   */
  function GenerationTarget(personRepository: Registry, employeeNumber: string, forwardedFor: Option<string>,
                            remoteAddr: string): (r: Result<(string, Person), string>)
    ensures r.Ok? <==> ClientIpAddress(forwardedFor, remoteAddr).Ok? && ParseInt(employeeNumber).Some?
                       && FindBySicilNo(personRepository, ParseInt(employeeNumber).value).Some?
    ensures r.Ok? ==> r.value.0 == ClientIpAddress(forwardedFor, remoteAddr).value
                      && r.value.1 in personRepository.persons
                      && Some(r.value.1.sicilNo) == ParseInt(employeeNumber)
    ensures ClientIpAddress(forwardedFor, remoteAddr).Ok? && ParseInt(employeeNumber).None?
            ==> r == Err(NumberFormatMessage(employeeNumber))
    ensures ClientIpAddress(forwardedFor, remoteAddr).Ok? && ParseInt(employeeNumber).Some?
            && FindBySicilNo(personRepository, ParseInt(employeeNumber).value).None?
            ==> r == Err(PersonNotFoundMessage)
  {
    match ClientIpAddress(forwardedFor, remoteAddr)
    case Err(e) => Err(e)
    case Ok(ip) =>
      match ParseInt(employeeNumber)
      case None => Err(NumberFormatMessage(employeeNumber))
      case Some(sicilNo) =>
        match FindBySicilNo(personRepository, sicilNo)
        case None => Err(PersonNotFoundMessage)
        case Some(person) => Ok((ip, person))
  }

  /**
   * The token row names the employee by the decimal text of the registry's number, which
   * parses back to the number that was asked for, whatever spelling the request used.
   */
  lemma TokenNamesCanonicalEmployeeNumber(personRepository: Registry, employeeNumber: string,
                                          forwardedFor: Option<string>, remoteAddr: string)
    requires GenerationTarget(personRepository, employeeNumber, forwardedFor, remoteAddr).Ok?
    ensures var person := GenerationTarget(personRepository, employeeNumber, forwardedFor, remoteAddr).value.1;
            ParseInt(ToString(person.sicilNo)) == ParseInt(employeeNumber)
  {
    var person := GenerationTarget(personRepository, employeeNumber, forwardedFor, remoteAddr).value.1;
    ParseToString(person.sicilNo, IntMin, IntMax);
  }

  class QRCodeController {
    const qrCodeService: QRCodeService
    const personRepository: Registry

    ghost predicate Valid()
      reads this, qrCodeService
    {
      qrCodeService.Valid()
    }

    constructor (qrCodeService: QRCodeService, personRepository: Registry)
      requires qrCodeService.Valid()
      ensures this.qrCodeService == qrCodeService && this.personRepository == personRepository
      ensures Valid()
    {
      this.qrCodeService := qrCodeService;
      this.personRepository := personRepository;
    }

    /**
     * `generateQRCode`. `forwardedFor` and `remoteAddr` are the request's header and peer
     * address, `now` the clock and `randomUuid` the fresh token string. A failure before the
     * token service creates no token and answers 500 with the message; otherwise the service is
     * asked for the person's token, with the registry's employee number and national ID as
     * decimal text, its names and the client address, and the token is answered with 200.
     */
    method GenerateQRCode(employeeNumber: string, forwardedFor: Option<string>, remoteAddr: string, now: int,
                          randomUuid: string)
      returns (response: Response)
      requires Valid()
      requires randomUuid !in qrCodeService.tokens
      modifies qrCodeService`tokens
      ensures Valid()
      ensures match GenerationTarget(personRepository, employeeNumber, forwardedFor, remoteAddr)
        case Err(message) =>
          response == Response(500, GenerationErrorPrefix + message)
          && qrCodeService.tokens == old(qrCodeService.tokens)
        case Ok((ip, person)) =>
          var psicno := ToString(person.sicilNo);
          var today := FindUnusedByPersonPsicnoAndDate(old(qrCodeService.tokens), psicno, Day(now));
          response.status == 200
          && (if today != {} then
                qrCodeService.tokens == old(qrCodeService.tokens) && response.body in qrCodeService.tokens
                && today == {qrCodeService.tokens[response.body]}
              else
                response.body == randomUuid
                && qrCodeService.tokens == old(qrCodeService.tokens)[randomUuid := QRCodeToken(
                     randomUuid, ip, now, now + TokenLifetime, false, false, false,
                     psicno, Some(ToString(person.tcKimlikNo)), person.adi, person.soyadi)])
    {
      var target := GenerationTarget(personRepository, employeeNumber, forwardedFor, remoteAddr);
      if target.Err? {
        return Response(500, GenerationErrorPrefix + target.error);
      }
      var (clientIpAddress, person) := target.value;
      var token := qrCodeService.GenerateQRTokenForPerson(ToString(person.sicilNo), ToString(person.tcKimlikNo),
                                                          person.adi, person.soyadi, clientIpAddress, now, randomUuid);
      return Response(200, token);
    }

    /** `validateQRToken`: exactly the token service's validity test. */
    function ValidateQRToken(token: string, now: int): (valid: bool)
      reads this, qrCodeService
      ensures valid <==> qrCodeService.IsValidToken(token, now)
      ensures valid <==> token in qrCodeService.tokens && qrCodeService.tokens[token].Presentable(now)
    {
      qrCodeService.IsValidToken(token, now)
    }
  }
}
