/** The users table and the three queries the login controller makes of it.
    The table is keyed by email, which is its unique index; `nextId` is the
    identity column's next value. The clock is the parameter `now`. */
module UserService {
  import opened Wrappers
  import opened Models
  import Text

  const GoogleProvider := "google"
  const LocalProvider := "local"

  /** One row of the users table. */
  datatype User = User(
    id: nat,
    email: string,
    name: string,
    picture: Option<string>,
    provider: string,
    passwordHash: Option<string>,
    createdAt: int,
    lastLoginAt: int)

  datatype Db = Db(rows: map<string, User>, nextId: nat)

  /** What the schema guarantees: each row sits under its own email (one row
      per email), identity values are positive and below the next one to be
      handed out, and no two rows share an identity value. */
  ghost predicate Valid(db: Db) {
    && 0 < db.nextId
    && (forall e :: e in db.rows ==> db.rows[e].email == e)
    && (forall e :: e in db.rows ==> 0 < db.rows[e].id < db.nextId)
    && (forall e1, e2 :: e1 in db.rows && e2 in db.rows && db.rows[e1].id == db.rows[e2].id ==> e1 == e2)
  }

  /** Rewriting a row in place, identity and email kept, keeps the schema. */
  lemma UpdateKeepsValid(db: Db, u: User)
    requires Valid(db)
    requires u.email in db.rows && db.rows[u.email].id == u.id
    ensures Valid(Db(db.rows[u.email := u], db.nextId))
  {
  }

  /** Adding a row for a new email under the next identity keeps the schema. */
  lemma InsertKeepsValid(db: Db, u: User)
    requires Valid(db)
    requires u.email !in db.rows && u.id == db.nextId
    ensures Valid(Db(db.rows[u.email := u], db.nextId + 1))
  {
  }

  lemma ReplaceKeepsSize(rows: map<string, User>, e: string, u: User)
    requires e in rows
    ensures |rows[e := u]| == |rows|
  {
  }

  lemma AddGrowsSize(rows: map<string, User>, e: string, u: User)
    requires e !in rows
    ensures |rows[e := u]| == |rows| + 1
  {
  }

  /** The summary built from a row; the identity is rendered in decimal. */
  function Info(u: User): UserInfo {
    UserInfo(Text.DecimalString(u.id), u.email, u.name, u.picture, u.provider)
  }

  /** Some row carries this email (the query's `u.Email == email`). */
  ghost predicate HasRowWithEmail(db: Db, email: string) {
    exists k :: k in db.rows && db.rows[k].email == email
  }

  /** The password check as the service performs it: the supplied password
      must equal the stored `PasswordHash` column. Plain equality against a
      stored value is a known weakness; nothing in this model depends on how
      the comparison is done. */
  predicate PasswordMatches(password: string, passwordHash: Option<string>) {
    passwordHash == Some(password)
  }

  function GetUserByEmail(db: Db, email: string): (r: Option<UserInfo>)
    requires Valid(db)
    ensures r.Some? <==> HasRowWithEmail(db, email)
    ensures r.Some? ==> r.value.email == email
    ensures r.Some? ==> var u := db.rows[email];
      r.value.name == u.name && r.value.picture == u.picture && r.value.provider == u.provider
      && r.value.id == Text.DecimalString(u.id)
  {
    if email in db.rows then Some(Info(db.rows[email])) else None
  }

  datatype Upserted = Upserted(user: UserInfo, db: Db)

  /** The update branch of the upsert: the row keeps its identity, password
      and creation time and takes the profile's name and picture. */
  function UpdateExisting(db: Db, g: GoogleUserInfo, now: int): (r: Upserted)
    requires Valid(db) && g.email in db.rows
    ensures Valid(r.db)
    ensures r.db.nextId == db.nextId && |r.db.rows| == |db.rows|
    ensures g.email in r.db.rows && r.db.rows == db.rows[g.email := r.db.rows[g.email]]
    ensures var prev := db.rows[g.email];
      var u := r.db.rows[g.email];
      && u.id == prev.id && u.email == g.email
      && u.passwordHash == prev.passwordHash && u.createdAt == prev.createdAt
      && u.name == g.name && u.picture == g.picture
      && u.provider == GoogleProvider && u.lastLoginAt == now
      && r.user == Info(u)
  {
    var u := db.rows[g.email].(name := g.name, picture := g.picture,
                                lastLoginAt := now, provider := GoogleProvider);
    UpdateKeepsValid(db, u);
    ReplaceKeepsSize(db.rows, g.email, u);
    Upserted(Info(u), Db(db.rows[g.email := u], db.nextId))
  }

  /** The insert branch of the upsert: a new row under the next identity. */
  function InsertNew(db: Db, g: GoogleUserInfo, now: int): (r: Upserted)
    requires Valid(db) && g.email !in db.rows
    ensures Valid(r.db)
    ensures r.db.nextId == db.nextId + 1 && |r.db.rows| == |db.rows| + 1
    ensures g.email in r.db.rows && r.db.rows == db.rows[g.email := r.db.rows[g.email]]
    ensures var u := r.db.rows[g.email];
      && u.id == db.nextId && u.email == g.email
      && u.name == g.name && u.picture == g.picture
      && u.provider == GoogleProvider && u.passwordHash == None
      && u.createdAt == now && u.lastLoginAt == now
      && r.user == Info(u)
  {
    var u := User(db.nextId, g.email, g.name, g.picture, GoogleProvider, None, now, now);
    InsertKeepsValid(db, u);
    AddGrowsSize(db.rows, g.email, u);
    Upserted(Info(u), Db(db.rows[g.email := u], db.nextId + 1))
  }

  /** Create-or-update by email for a profile Google vouched for. */
  function CreateOrUpdateUser(db: Db, g: GoogleUserInfo, now: int): (r: Upserted)
    requires Valid(db)
    ensures Valid(r.db)
    ensures r.db.rows.Keys == db.rows.Keys + {g.email}
    ensures forall e :: e in db.rows && e != g.email ==> r.db.rows[e] == db.rows[e]
    ensures var u := r.db.rows[g.email];
      && u.email == g.email && u.name == g.name && u.picture == g.picture
      && u.provider == GoogleProvider && u.lastLoginAt == now
      && r.user == Info(u)
    ensures g.email in db.rows ==>
      var prev := db.rows[g.email];
      var u := r.db.rows[g.email];
      && |r.db.rows| == |db.rows| && r.db.nextId == db.nextId
      && u.id == prev.id && u.passwordHash == prev.passwordHash && u.createdAt == prev.createdAt
    ensures g.email !in db.rows ==>
      var u := r.db.rows[g.email];
      && |r.db.rows| == |db.rows| + 1 && r.db.nextId == db.nextId + 1
      && u.id == db.nextId && u.passwordHash == None && u.createdAt == now
  {
    if g.email in db.rows then UpdateExisting(db, g, now) else InsertNew(db, g, now)
  }

  datatype Validated = Validated(user: Option<UserInfo>, db: Db)

  /** Password check against local accounts only. */
  function ValidateUser(db: Db, username: string, password: string, now: int): (r: Validated)
    requires Valid(db)
    ensures Valid(r.db)
    ensures r.user.Some? <==>
      && username in db.rows
      && db.rows[username].provider == LocalProvider
      && PasswordMatches(password, db.rows[username].passwordHash)
    ensures r.user.None? ==> r.db == db
    ensures r.user.Some? ==>
      var u := db.rows[username];
      && r.db == Db(db.rows[username := u.(lastLoginAt := now)], db.nextId)
      && r.user.value.email == username
      && r.user.value == Info(u)
  {
    if username in db.rows && db.rows[username].provider == LocalProvider then
      var u := db.rows[username];
      if !PasswordMatches(password, u.passwordHash) then Validated(None, db)
      else
        var u' := u.(lastLoginAt := now);
        UpdateKeepsValid(db, u');
        Validated(Some(Info(u')), Db(db.rows[username := u'], db.nextId))
    else Validated(None, db)
  }

  /** Two upserts for one email leave one row for it; the second profile's
      name and picture win and the identity stays that of the first. */
  lemma UpsertTwiceSecondWins(db: Db, g1: GoogleUserInfo, g2: GoogleUserInfo, t1: int, t2: int)
    requires Valid(db)
    requires g1.email == g2.email
    ensures var r1 := CreateOrUpdateUser(db, g1, t1);
      var r2 := CreateOrUpdateUser(r1.db, g2, t2);
      && |r2.db.rows| == |db.rows| + (if g1.email in db.rows then 0 else 1)
      && r2.db.rows[g2.email].name == g2.name
      && r2.db.rows[g2.email].picture == g2.picture
      && r2.user.id == r1.user.id
  {
  }

  /** A row tagged `google` never passes the password check, whatever its
      password column holds. */
  lemma GoogleRowNeverValidates(db: Db, email: string, password: string, now: int)
    requires Valid(db)
    requires email in db.rows && db.rows[email].provider == GoogleProvider
    ensures ValidateUser(db, email, password, now) == Validated(None, db)
  {
  }

  /** After a Google login for an email, password login for it fails for
      every password: the upsert retags the row as `google`. */
  lemma UpsertLocksOutPasswordLogin(db: Db, g: GoogleUserInfo, t: int, password: string, t2: int)
    requires Valid(db)
    ensures var r := CreateOrUpdateUser(db, g, t);
      ValidateUser(r.db, g.email, password, t2).user == None
  {
  }

  /** Distinct rows hand out distinct user ids, so the id in a summary (and
      in any token issued for it) names one row. */
  lemma DistinctRowsDistinctIds(db: Db, e1: string, e2: string)
    requires Valid(db)
    requires e1 in db.rows && e2 in db.rows && e1 != e2
    ensures Info(db.rows[e1]).id != Info(db.rows[e2]).id
  {
    Text.DecimalStringInjective(db.rows[e1].id, db.rows[e2].id);
  }
}
