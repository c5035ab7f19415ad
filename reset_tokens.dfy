/** The password-reset token table (PasswordResetTokenRepository). The clock
    is an integer number of seconds supplied by the caller. */
module ResetTokens {
  import opened Common
  import opened Tables

  datatype ResetToken = ResetToken(token: string, email: string, expiry: int, used: bool)

  function HasToken(token: string): ResetToken -> bool {
    (t: ResetToken) => t.token == token
  }

  function ForEmail(email: string): ResetToken -> bool {
    (t: ResetToken) => t.email == email
  }

  function NotForEmail(email: string): ResetToken -> bool {
    (t: ResetToken) => t.email != email
  }

  /** `LocalDateTime.isBefore`: the token expired strictly before `now`. */
  predicate ExpiredAt(t: ResetToken, now: int) {
    t.expiry < now
  }

  function NotExpiredAt(now: int): ResetToken -> bool {
    (t: ResetToken) => !ExpiredAt(t, now)
  }

  /** Token strings are random UUIDs: no two rows share one. */
  ghost predicate UniqueTokens(rows: seq<ResetToken>) {
    forall i, j :: 0 <= i < j < |rows| ==> rows[i].token != rows[j].token
  }

  /** `findByToken`. */
  function FindByToken(rows: seq<ResetToken>, token: string): (r: Lookup)
    ensures r.Missing? <==> forall i :: 0 <= i < |rows| ==> rows[i].token != token
    ensures r.Found? ==> r.index < |rows| && rows[r.index].token == token
    ensures r.NonUnique? ==> !UniqueTokens(rows)
  {
    FindUnique(rows, HasToken(token))
  }

  /** The table after `deleteByEmail(email)`: every token of `email` is gone,
      every other token is kept, in order. */
  function WithoutEmail(rows: seq<ResetToken>, email: string): (r: seq<ResetToken>)
    ensures forall t :: t in r ==> t in rows && t.email != email
    ensures forall i :: 0 <= i < |rows| && rows[i].email != email ==> rows[i] in r
    ensures UniqueTokens(rows) ==> UniqueTokens(r)
  {
    var r := Filter(rows, NotForEmail(email));
    assert UniqueTokens(rows) ==> UniqueTokens(r) by {
      if UniqueTokens(rows) {
        var m := Matching(rows, NotForEmail(email));
        forall i, j | 0 <= i < j < |r| ensures r[i].token != r[j].token {
          assert m[i] < m[j];
        }
      }
    }
    r
  }

  /** Deleting an address's tokens adds no token string: one that no row
      held is still held by none. */
  lemma WithoutEmailKeepsAbsent(rows: seq<ResetToken>, email: string, token: string)
    requires forall i :: 0 <= i < |rows| ==> rows[i].token != token
    ensures forall k :: 0 <= k < |WithoutEmail(rows, email)| ==> WithoutEmail(rows, email)[k].token != token
  {
    var r := WithoutEmail(rows, email);
    var m := Matching(rows, NotForEmail(email));
    forall k | 0 <= k < |r| ensures r[k].token != token {
      assert r[k] == rows[m[k]];
    }
  }

  /** The table after `deleteByExpiryDateBefore(now)`: exactly the tokens
      that expired strictly before `now` are gone. */
  function WithoutExpiredBefore(rows: seq<ResetToken>, now: int): (r: seq<ResetToken>)
    ensures forall t :: t in r ==> t in rows && !ExpiredAt(t, now)
    ensures forall i :: 0 <= i < |rows| && !ExpiredAt(rows[i], now) ==> rows[i] in r
  {
    Filter(rows, NotExpiredAt(now))
  }

  /** After `deleteByEmail(email)` no token that belonged to `email` can be
      found any more. */
  lemma DeletedTokensNotFound(rows: seq<ResetToken>, email: string, i: nat)
    requires UniqueTokens(rows) && i < |rows| && rows[i].email == email
    ensures FindByToken(WithoutEmail(rows, email), rows[i].token).Missing?
  {
    var r := WithoutEmail(rows, email);
    forall k | 0 <= k < |r| ensures r[k].token != rows[i].token {
      var j :| 0 <= j < |rows| && rows[j] == r[k];
      assert j != i;
    }
  }

  /** The token table, updated in place. */
  class ResetTokenTable {
    var rows: seq<ResetToken>

    ghost predicate Valid()
      reads this
    {
      UniqueTokens(rows)
    }

    constructor ()
      ensures Valid() && rows == []
    {
      rows := [];
    }

    /** `deleteByEmail(email)`. */
    method DeleteByEmail(email: string)
      requires Valid()
      modifies this
      ensures Valid()
      ensures rows == WithoutEmail(old(rows), email)
    {
      rows := WithoutEmail(rows, email);
    }

    /** `deleteByExpiryDateBefore(now)`. */
    method DeleteByExpiryDateBefore(now: int)
      requires Valid()
      modifies this
      ensures Valid()
      ensures rows == WithoutExpiredBefore(old(rows), now)
    {
      var kept := WithoutExpiredBefore(rows, now);
      ghost var m := Matching(rows, NotExpiredAt(now));
      forall i, j | 0 <= i < j < |kept| ensures kept[i].token != kept[j].token {
        assert m[i] < m[j];
      }
      rows := kept;
    }

    /** `save` of a new token whose string no row holds. */
    method Insert(t: ResetToken)
      requires Valid()
      requires forall i :: 0 <= i < |rows| ==> rows[i].token != t.token
      modifies this
      ensures Valid()
      ensures rows == old(rows) + [t]
    {
      rows := rows + [t];
    }

    /** `setUsed(true)` followed by `save` of the stored token at `i`. */
    method MarkUsed(i: nat)
      requires Valid() && i < |rows|
      modifies this
      ensures Valid()
      ensures rows == old(rows)[i := old(rows)[i].(used := true)]
    {
      rows := rows[i := rows[i].(used := true)];
    }
  }
}
