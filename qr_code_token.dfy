/**
 * The QR token entity: a persisted row of the token table, and the entity object a service fills
 * in before the first save, whose pre-persist hook assigns the token string and the timestamps.
 * Instants are whole seconds on the server's local time line; a calendar day is `t / 86400`.
 */
module QRCodeToken {
  import opened Wrappers

  /** The fixed lifetime of a token: 24 hours. */
  const TokenLifetime: int := 24 * 60 * 60

  /** The calendar day (`LocalDate`) of an instant. */
  function Day(t: int): int {
    t / 86400
  }

  /** A row of the token table. `token` is unique across the table. */
  datatype QRCodeToken = QRCodeToken(
    token: string,
    ipAddress: string,
    createdAt: int,
    expiresAt: int,
    used: bool,
    usedForCheckIn: bool,
    usedForCheckOut: bool,
    personPsicno: string,
    personTckiml: Option<string>,
    personFirstName: Option<string>,
    personLastName: Option<string>)
  {
    /**
     * The test the token service applies to a row it found: neither expired (`expiresAt` is not
     * before `now`, so the last valid instant is `expiresAt` itself) nor used for both actions.
     */
    predicate Presentable(now: int) {
      !(expiresAt < now) && !(usedForCheckIn && usedForCheckOut)
    }
  }

  /** The entity object between `new QRCodeToken()` and its first save (`null` fields are None). */
  class QRCodeTokenEntity {
    var token: Option<string>
    var ipAddress: Option<string>
    var createdAt: Option<int>
    var expiresAt: Option<int>
    var used: bool
    var usedForCheckIn: bool
    var usedForCheckOut: bool
    var personPsicno: Option<string>
    var personTckiml: Option<string>
    var personFirstName: Option<string>
    var personLastName: Option<string>

    /** The no-argument constructor: all three flags start false, every other field null. */
    constructor ()
      ensures !used && !usedForCheckIn && !usedForCheckOut
      ensures token.None? && ipAddress.None? && createdAt.None? && expiresAt.None?
      ensures personPsicno.None? && personTckiml.None? && personFirstName.None? && personLastName.None?
    {
      token, ipAddress, createdAt, expiresAt := None, None, None, None;
      used, usedForCheckIn, usedForCheckOut := false, false, false;
      personPsicno, personTckiml, personFirstName, personLastName := None, None, None, None;
    }

    /**
     * The pre-persist hook: a random token string only when none was set, creation time `now`,
     * expiry 24 hours later. No other field changes.
     */
    method OnCreate(now: int, randomUuid: string)
      modifies this`token, this`createdAt, this`expiresAt
      ensures token == if old(token).None? then Some(randomUuid) else old(token)
      ensures createdAt == Some(now)
      ensures expiresAt == Some(now + TokenLifetime)
    {
      if token.None? {
        token := Some(randomUuid);
      }
      createdAt := Some(now);
      expiresAt := Some(now + TokenLifetime);
    }

    /** The columns declared `nullable = false` are all set, so the row can be written. */
    predicate Persistable()
      reads this
    {
      token.Some? && ipAddress.Some? && createdAt.Some? && expiresAt.Some? && personPsicno.Some?
    }

    /** The row a save of this entity writes to the table. */
    function Row(): QRCodeToken
      reads this
      requires Persistable()
    {
      QRCodeToken(token.value, ipAddress.value, createdAt.value, expiresAt.value,
                  used, usedForCheckIn, usedForCheckOut,
                  personPsicno.value, personTckiml, personFirstName, personLastName)
    }
  }

  /**
   * A token just created at `createdAt` with no flag set is presentable exactly up to and
   * including 24 hours later, and is never presentable once expired.
   */
  lemma FreshTokenLifetime(t: QRCodeToken, now: int)
    requires !t.usedForCheckIn && !t.usedForCheckOut
    requires t.expiresAt == t.createdAt + TokenLifetime
    ensures t.Presentable(now) <==> now <= t.createdAt + 86400
  {
  }
}
