/**
 * lib/db.js: the `User` model and storeTokenForUser, an upsert keyed by the
 * unique phone field. Times are milliseconds since the epoch.
 */
module Db {

  import opened Js

  /**
   * A `User` document: the schema's four fields and the two fields its
   * `timestamps` option maintains. A document created elsewhere may lack
   * the token fields, hence the options.
   */
  datatype User = User(
    phone: string,
    whoopAccessToken: Option<string>,
    whoopRefreshToken: Option<string>,
    whoopTokenExpiresAt: Option<int>,
    createdAt: int,
    updatedAt: int)

  /** The fields of the token response storeTokenForUser reads. */
  datatype TokenResponse = TokenResponse(access_token: string, refresh_token: string, expires_in: int)

  /** The unique index on `phone`: each document is stored under its own phone. */
  predicate KeyedByPhone(users: map<string, User>) {
    forall p :: p in users ==> users[p].phone == p
  }

  /**
   * `new Date(Date.now() + expires_in * 1000)`: seconds from now, in
   * milliseconds; None for an invalid date, when the sum leaves the range
   * of a `Date`.
   */
  function ExpiresAt(token: TokenResponse, now: int): (t: Option<int>)
    ensures t.Some? <==> -MaxTime <= now + 1000 * token.expires_in <= MaxTime
    ensures t.Some? ==> t.value - now == 1000 * token.expires_in
    ensures t.Some? && token.expires_in > 0 ==> t.value > now
  {
    TimeClip(now + token.expires_in * 1000)
  }

  /**
   * The document after the update: the three token fields set, `updatedAt`
   * stamped; an existing document keeps its phone and `createdAt`, a new one
   * takes the phone from the filter and is created now.
   */
  function Updated(existing: Option<User>, phone: string, token: TokenResponse, now: int): (u: User)
    ensures u.whoopAccessToken == Some(token.access_token) && u.whoopRefreshToken == Some(token.refresh_token)
    ensures u.whoopTokenExpiresAt == ExpiresAt(token, now) && u.updatedAt == now
    ensures existing.Some? ==> u.phone == existing.value.phone && u.createdAt == existing.value.createdAt
    ensures existing.None? ==> u.phone == phone && u.createdAt == now
  {
    var expires := ExpiresAt(token, now);
    match existing
    case Some(u) => u.(whoopAccessToken := Some(token.access_token), whoopRefreshToken := Some(token.refresh_token),
                       whoopTokenExpiresAt := expires, updatedAt := now)
    case None => User(phone, Some(token.access_token), Some(token.refresh_token), expires, now, now)
  }

  /**
   * `findOneAndUpdate({ phone }, update, { upsert: true, new: true })` on the
   * collection. The update is cast to the schema first: an invalid date for
   * the `Date` field fails the cast, the call throws and nothing is written
   * (None).
   */
  function Upsert(users: map<string, User>, phone: string, token: TokenResponse, now: int): (r: Option<map<string, User>>)
    ensures r.Some? <==> ExpiresAt(token, now).Some?
    ensures r.Some? ==> r.value.Keys == users.Keys + {phone}
    ensures r.Some? ==> r.value[phone].whoopAccessToken == Some(token.access_token) && r.value[phone].updatedAt == now
    ensures r.Some? && phone in users ==> r.value[phone].createdAt == users[phone].createdAt
    ensures r.Some? && phone !in users ==> r.value[phone].phone == phone && r.value[phone].createdAt == now
  {
    if ExpiresAt(token, now).None? then None
    else Some(users[phone := Updated(if phone in users then Some(users[phone]) else None, phone, token, now)])
  }

  /** The phone keys afterwards: the old ones and the given phone, so exactly one document has it. */
  lemma UpsertKeys(users: map<string, User>, phone: string, token: TokenResponse, now: int)
    requires KeyedByPhone(users)
    ensures var r := Upsert(users, phone, token, now);
      r.Some? ==>
        && r.value.Keys == users.Keys + {phone}
        && KeyedByPhone(r.value)
        && forall p :: p in r.value && r.value[p].phone == phone ==> p == phone
  {
  }

  /** Documents for other phones are untouched. */
  lemma UpsertOthers(users: map<string, User>, phone: string, token: TokenResponse, now: int)
    ensures var r := Upsert(users, phone, token, now);
      r.Some? ==> forall p :: p in users && p != phone ==> r.value[p] == users[p]
  {
  }

  /**
   * The stored tokens are the response's, and the expiry is `expires_in`
   * seconds after now; an expiry outside the range of a `Date` stores nothing.
   */
  lemma UpsertTokens(users: map<string, User>, phone: string, token: TokenResponse, now: int)
    requires KeyedByPhone(users)
    ensures Upsert(users, phone, token, now).None? <==> !(-MaxTime <= now + token.expires_in * 1000 <= MaxTime)
    ensures var r := Upsert(users, phone, token, now);
      r.Some? ==>
        var u := r.value[phone];
        && u.phone == phone
        && u.whoopAccessToken == Some(token.access_token)
        && u.whoopRefreshToken == Some(token.refresh_token)
        && u.whoopTokenExpiresAt == Some(now + token.expires_in * 1000)
        && u.updatedAt == now
  {
  }

  /** An existing document keeps its creation time; a new one is created now. */
  lemma UpsertCreated(users: map<string, User>, phone: string, token: TokenResponse, now: int)
    ensures var r := Upsert(users, phone, token, now);
      r.Some? ==> r.value[phone].createdAt == (if phone in users then users[phone].createdAt else now)
  {
  }

  /** Repeating the call with the same response at the same time changes nothing more. */
  lemma UpsertIdempotent(users: map<string, User>, phone: string, token: TokenResponse, now: int)
    ensures var r := Upsert(users, phone, token, now);
      r.Some? ==> Upsert(r.value, phone, token, now) == r
  {
    var r := Upsert(users, phone, token, now);
    if r.Some? {
      assert Updated(Some(r.value[phone]), phone, token, now) == r.value[phone];
      assert r.value[phone := r.value[phone]] == r.value;
    }
  }

  /** The users collection. */
  class UserStore {
    var users: map<string, User>

    ghost predicate Valid()
      reads this
    {
      KeyedByPhone(users)
    }

    constructor()
      ensures Valid() && users == map[]
    {
      users := map[];
    }

    /**
     * storeTokenForUser(phone, tokenResponse), with `now` for Date.now():
     * the collection becomes the upsert of the old one, and the document
     * returned is the one now stored under the phone (`new: true`). When the
     * expiry is an invalid date the call throws (None) and nothing changes.
     */
    method StoreTokenForUser(phone: string, token: TokenResponse, now: int) returns (user: Option<User>)
      requires Valid()
      modifies this
      ensures Valid()
      ensures Upsert(old(users), phone, token, now).Some? ==>
        users == Upsert(old(users), phone, token, now).value && user == Some(users[phone])
      ensures Upsert(old(users), phone, token, now).None? ==> users == old(users) && user.None?
    {
      var expires := ExpiresAt(token, now);
      if expires.None? {
        return None;
      }
      UpsertKeys(users, phone, token, now);
      var existing := if phone in users then Some(users[phone]) else None;
      var u := Updated(existing, phone, token, now);
      users := users[phone := u];
      user := Some(u);
    }
  }
}
