/**
 * The token service: issues at most one reusable token per employee and day, answers whether a
 * token may be presented, and records its consumption. The token table is the service's field.
 */
module QRCodeService {
  import opened Wrappers
  import opened QRCodeToken
  import opened QRCodeTokenRepository

  /** The three consumption flags a token carries. */
  datatype Flag = ForCheckIn | ForCheckOut | Legacy

  function WithFlag(t: QRCodeToken, f: Flag): QRCodeToken {
    match f
    case ForCheckIn => t.(usedForCheckIn := true)
    case ForCheckOut => t.(usedForCheckOut := true)
    case Legacy => t.(used := true)
  }

  /** The table after "find the row by token string; if present, set the flag and save it". */
  function Marked(tokens: TokenTable, token: string, f: Flag): (r: TokenTable)
    ensures r.Keys == tokens.Keys
    ensures forall k :: k in tokens && k != token ==> r[k] == tokens[k]
  {
    if token in tokens then tokens[token := WithFlag(tokens[token], f)] else tokens
  }

  /** Marking changes exactly the named flag of the named row, and marking twice is marking once. */
  lemma MarkedChangesOnlyTheFlag(tokens: TokenTable, token: string, f: Flag)
    ensures token !in tokens ==> Marked(tokens, token, f) == tokens
    ensures token in tokens ==> Marked(tokens, token, f)[token] == WithFlag(tokens[token], f)
    ensures Marked(Marked(tokens, token, f), token, f) == Marked(tokens, token, f)
    ensures token in tokens && f == ForCheckIn
            ==> Marked(tokens, token, f)[token].(usedForCheckIn := tokens[token].usedForCheckIn) == tokens[token]
    ensures token in tokens && f == ForCheckOut
            ==> Marked(tokens, token, f)[token].(usedForCheckOut := tokens[token].usedForCheckOut) == tokens[token]
    ensures token in tokens && f == Legacy
            ==> Marked(tokens, token, f)[token].(used := tokens[token].used) == tokens[token]
  {
  }

  /** Marking keeps the table's invariants: rows stay under their own string, and at most one unused row per employee and day. */
  lemma MarkedKeepsInvariants(tokens: TokenTable, token: string, f: Flag)
    requires KeyedByToken(tokens) && AtMostOneUnusedPerDay(tokens)
    ensures KeyedByToken(Marked(tokens, token, f)) && AtMostOneUnusedPerDay(Marked(tokens, token, f))
  {
    var r := Marked(tokens, token, f);
    forall a, b | a in r && b in r && SameUnusedDay(r[a], r[b]) ensures a == b {
      assert SameUnusedDay(tokens[a], tokens[b]);
    }
  }

  /** A token marked for both actions can no longer be presented, whatever the time. */
  lemma BothActionsExhaustToken(tokens: TokenTable, token: string, now: int)
    requires token in tokens
    ensures !Marked(Marked(tokens, token, ForCheckIn), token, ForCheckOut)[token].Presentable(now)
    ensures !Marked(Marked(tokens, token, ForCheckOut), token, ForCheckIn)[token].Presentable(now)
  {
  }

  /** The token strings among a set of rows. */
  function Strings(rows: set<QRCodeToken>): set<string> {
    set t | t in rows :: t.token
  }

  /**
   * Same-day reuse looks only at the legacy flag: marking a token for check-in or check-out leaves
   * the token strings the reuse query finds unchanged, while marking it with the legacy flag
   * removes it from that query.
   */
  lemma ReuseIgnoresDualFlags(tokens: TokenTable, token: string, f: Flag, psicno: string, date: int)
    requires KeyedByToken(tokens)
    ensures f != Legacy ==> Strings(FindUnusedByPersonPsicnoAndDate(Marked(tokens, token, f), psicno, date))
                            == Strings(FindUnusedByPersonPsicnoAndDate(tokens, psicno, date))
    ensures f == Legacy ==> token !in Strings(FindUnusedByPersonPsicnoAndDate(Marked(tokens, token, f), psicno, date))
  {
    var m := Marked(tokens, token, f);
    var before := FindUnusedByPersonPsicnoAndDate(tokens, psicno, date);
    var after := FindUnusedByPersonPsicnoAndDate(m, psicno, date);
    assert KeyedByToken(m);
    if f != Legacy {
      forall s | s in Strings(after) ensures s in Strings(before) {
        var t :| t in after && t.token == s;
        var k :| k in m && m[k] == t;
        assert tokens[k] in before;
      }
      forall s | s in Strings(before) ensures s in Strings(after) {
        var t :| t in before && t.token == s;
        var k :| k in tokens && tokens[k] == t;
        assert m[k] in after;
      }
    } else {
      forall t | t in after ensures t.token != token {
        var k :| k in m && m[k] == t;
      }
    }
  }

  /** Under the invariants, a row of the same-day query is the query's only row, filed under its token. */
  lemma ReusedTokenIsTheOnlyOne(tokens: TokenTable, psicno: string, date: int, existing: QRCodeToken)
    requires KeyedByToken(tokens) && AtMostOneUnusedPerDay(tokens)
    requires existing in FindUnusedByPersonPsicnoAndDate(tokens, psicno, date)
    ensures existing.token in tokens && tokens[existing.token] == existing
    ensures FindUnusedByPersonPsicnoAndDate(tokens, psicno, date) == {existing}
  {
    var todayTokens := FindUnusedByPersonPsicnoAndDate(tokens, psicno, date);
    UnusedTodayAtMostOne(tokens, psicno, date);
    forall u | u in todayTokens ensures u == existing {
      assert |todayTokens - {existing}| == |todayTokens| - 1;
    }
  }

  /**
   * Inserting an unused row under a fresh token, for an employee with no unused row of its
   * creation day, keeps both invariants and makes that row the day's only unused one.
   */
  lemma InsertKeepsInvariants(tokens: TokenTable, row: QRCodeToken)
    requires KeyedByToken(tokens) && AtMostOneUnusedPerDay(tokens)
    requires row.token !in tokens && !row.used
    requires FindUnusedByPersonPsicnoAndDate(tokens, row.personPsicno, Day(row.createdAt)) == {}
    ensures var updated := tokens[row.token := row];
      && KeyedByToken(updated) && AtMostOneUnusedPerDay(updated)
      && FindUnusedByPersonPsicnoAndDate(updated, row.personPsicno, Day(row.createdAt)) == {row}
  {
    var updated := tokens[row.token := row];
    forall a, b | a in updated && b in updated && SameUnusedDay(updated[a], updated[b]) ensures a == b {
      if a != row.token && b != row.token {
        assert SameUnusedDay(tokens[a], tokens[b]);
      }
    }
    var today := FindUnusedByPersonPsicnoAndDate(updated, row.personPsicno, Day(row.createdAt));
    assert updated[row.token] == row && row in today;
    forall u | u in today ensures u == row {
      var k :| k in updated && updated[k] == u;
    }
  }

  class QRCodeService {
    /** The token table (`qrCodeTokenRepository`). */
    var tokens: TokenTable

    ghost predicate Valid()
      reads this
    {
      KeyedByToken(tokens) && AtMostOneUnusedPerDay(tokens)
    }

    constructor ()
      ensures Valid() && tokens == map[]
    {
      tokens := map[];
    }

    /**
     * `generateQRTokenForPerson`: if the employee already has a token created today whose legacy
     * `used` flag is false, return its string and create nothing; otherwise create and save one
     * new token for the employee and return its string. `randomUuid` is the value
     * `UUID.randomUUID()` would produce; `now` is the server clock.
     */
    method GenerateQRTokenForPerson(personPsicno: string, personTckiml: string, firstName: Option<string>,
                                    lastName: Option<string>, ipAddress: string, now: int, randomUuid: string)
      returns (token: string)
      requires Valid()
      requires randomUuid !in tokens
      modifies this`tokens
      ensures Valid()
      ensures var today := FindUnusedByPersonPsicnoAndDate(old(tokens), personPsicno, Day(now));
        if today != {} then
          tokens == old(tokens) && token in tokens && today == {tokens[token]}
        else
          token == randomUuid &&
          tokens == old(tokens)[randomUuid := QRCodeToken(randomUuid, ipAddress, now, now + TokenLifetime,
                                                          false, false, false, personPsicno, Some(personTckiml),
                                                          firstName, lastName)]
      ensures token in tokens && FindUnusedByPersonPsicnoAndDate(tokens, personPsicno, Day(now)) == {tokens[token]}
    {
      var today := Day(now);
      var todayTokens := FindUnusedByPersonPsicnoAndDate(tokens, personPsicno, today);
      if todayTokens != {} {
        var existing :| existing in todayTokens;
        ReusedTokenIsTheOnlyOne(tokens, personPsicno, today, existing);
        token := existing.token;
        return;
      }
      var entity := new QRCodeTokenEntity();
      entity.personPsicno := Some(personPsicno);
      entity.personTckiml := Some(personTckiml);
      entity.personFirstName := firstName;
      entity.personLastName := lastName;
      entity.ipAddress := Some(ipAddress);
      // save: the pre-persist hook runs, then the row is inserted
      entity.OnCreate(now, randomUuid);
      assert entity.token == Some(randomUuid) && entity.personPsicno == Some(personPsicno);
      var row := entity.Row();
      assert row == QRCodeToken(randomUuid, ipAddress, now, now + TokenLifetime, false, false, false,
                                personPsicno, Some(personTckiml), firstName, lastName);
      InsertKeepsInvariants(tokens, row);
      tokens := tokens[row.token := row];
      token := entity.token.value;
    }

    /**
     * `isValidToken`: false for an unknown token, for one whose expiry lies before `now`, and for
     * one used for both check-in and check-out; true otherwise.
     */
    function IsValidToken(token: string, now: int): (valid: bool)
      reads this
      ensures valid <==> token in tokens && tokens[token].expiresAt >= now
                         && !(tokens[token].usedForCheckIn && tokens[token].usedForCheckOut)
    {
      match FindByToken(tokens, token)
      case None => false
      case Some(t) => t.Presentable(now)
    }

    /** `getValidToken`: the stored row exactly when `isValidToken` holds, otherwise null. */
    function GetValidToken(token: string, now: int): (r: Option<QRCodeToken>)
      reads this
      ensures r.Some? <==> IsValidToken(token, now)
      ensures r.Some? ==> token in tokens && r.value == tokens[token]
    {
      match FindByToken(tokens, token)
      case None => None
      case Some(t) => if t.Presentable(now) then Some(t) else None
    }

    /** `markTokenAsUsedForCheckIn`: sets `usedForCheckIn` of that row, if there is one. */
    method MarkTokenAsUsedForCheckIn(token: string)
      requires Valid()
      modifies this`tokens
      ensures Valid()
      ensures tokens == Marked(old(tokens), token, ForCheckIn)
    {
      Mark(token, ForCheckIn);
    }

    /** `markTokenAsUsedForCheckOut`: sets `usedForCheckOut` of that row, if there is one. */
    method MarkTokenAsUsedForCheckOut(token: string)
      requires Valid()
      modifies this`tokens
      ensures Valid()
      ensures tokens == Marked(old(tokens), token, ForCheckOut)
    {
      Mark(token, ForCheckOut);
    }

    /** `markTokenAsUsed`: sets the legacy `used` flag of that row, the one flag that stops same-day reuse. */
    method MarkTokenAsUsed(token: string)
      requires Valid()
      modifies this`tokens
      ensures Valid()
      ensures tokens == Marked(old(tokens), token, Legacy)
    {
      Mark(token, Legacy);
    }

    method Mark(token: string, f: Flag)
      requires Valid()
      modifies this`tokens
      ensures Valid()
      ensures tokens == Marked(old(tokens), token, f)
    {
      MarkedKeepsInvariants(tokens, token, f);
      var found := FindByToken(tokens, token);
      if found.Some? {
        var t := WithFlag(found.value, f);
        tokens := tokens[token := t];
      }
    }
  }
}
