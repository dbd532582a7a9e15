/**
 * The token table's finders, as read-only queries over the table. The table is a map from token
 * string to row: the string is the table's unique column, so a lookup by it yields one row at most.
 */
module QRCodeTokenRepository {
  import opened Wrappers
  import opened QRCodeToken

  type TokenTable = map<string, QRCodeToken>

  /** Every row is filed under its own token string. */
  ghost predicate KeyedByToken(tokens: TokenTable) {
    forall k :: k in tokens ==> tokens[k].token == k
  }

  /** `findByToken`: the row with that token string, if any. */
  function FindByToken(tokens: TokenTable, token: string): (r: Option<QRCodeToken>)
    ensures r.Some? <==> token in tokens
    ensures r.Some? ==> r.value == tokens[token]
    ensures KeyedByToken(tokens) && r.Some? ==> r.value.token == token
  {
    if token in tokens then Some(tokens[token]) else None
  }

  /** `findByTokenAndUsedFalse`: as `findByToken`, but only a row whose legacy `used` flag is false. */
  function FindByTokenAndUsedFalse(tokens: TokenTable, token: string): (r: Option<QRCodeToken>)
    ensures r.Some? <==> token in tokens && !tokens[token].used
    ensures r.Some? ==> r == FindByToken(tokens, token)
  {
    match FindByToken(tokens, token)
    case Some(t) => if t.used then None else Some(t)
    case None => None
  }

  /** `findByPersonPsicnoAndDate`: the rows of that employee created on that calendar day (in no particular order). */
  function FindByPersonPsicnoAndDate(tokens: TokenTable, psicno: string, date: int): (r: set<QRCodeToken>)
    ensures forall t :: t in r <==> t in tokens.Values && t.personPsicno == psicno && Day(t.createdAt) == date
  {
    set k | k in tokens && tokens[k].personPsicno == psicno && Day(tokens[k].createdAt) == date :: tokens[k]
  }

  /**
   * `findUnusedByPersonPsicnoAndDate`: the previous rows whose legacy `used` flag is false. The
   * check-in and check-out flags play no part.
   */
  function FindUnusedByPersonPsicnoAndDate(tokens: TokenTable, psicno: string, date: int): (r: set<QRCodeToken>)
    ensures r <= FindByPersonPsicnoAndDate(tokens, psicno, date)
    ensures forall t :: t in r <==> t in FindByPersonPsicnoAndDate(tokens, psicno, date) && !t.used
  {
    set k | k in tokens && tokens[k].personPsicno == psicno && Day(tokens[k].createdAt) == date
                        && !tokens[k].used :: tokens[k]
  }

  /** Two rows that both count as "this employee's unused token of that day". */
  predicate SameUnusedDay(a: QRCodeToken, b: QRCodeToken) {
    !a.used && !b.used && a.personPsicno == b.personPsicno && Day(a.createdAt) == Day(b.createdAt)
  }

  /** The table holds at most one unused token per employee and calendar day. */
  ghost predicate AtMostOneUnusedPerDay(tokens: TokenTable) {
    forall a, b :: a in tokens && b in tokens && SameUnusedDay(tokens[a], tokens[b]) ==> a == b
  }

  /** Under that invariant the same-day query returns at most one row. */
  lemma UnusedTodayAtMostOne(tokens: TokenTable, psicno: string, date: int)
    requires AtMostOneUnusedPerDay(tokens)
    ensures |FindUnusedByPersonPsicnoAndDate(tokens, psicno, date)| <= 1
  {
    var r := FindUnusedByPersonPsicnoAndDate(tokens, psicno, date);
    if r != {} {
      var t :| t in r;
      forall u | u in r ensures u == t {
        var a :| a in tokens && tokens[a] == t;
        var b :| b in tokens && tokens[b] == u;
        assert SameUnusedDay(tokens[a], tokens[b]);
      }
      assert r == {t};
    }
  }
}
