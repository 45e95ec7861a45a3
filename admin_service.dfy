/**
 * The administrator's registries: users, unique by username and stored with
 * a password hash, and events. The hashing function and its salt come from
 * outside (a salted one-way hash) and are parameters here.
 */
module AdminService {
  import opened Wrappers
  import opened Models

  /** Every user, in table order. */
  function GetAllUsers(db: Store): (r: seq<User>)
    reads db
    ensures forall u :: u in r <==> u in db.users
  {
    db.users
  }

  /** Every event, in table order. */
  function GetAllEvents(db: Store): (r: seq<Event>)
    reads db
    ensures forall e :: e in r <==> e in db.events
  {
    db.events
  }

  predicate UsernameTaken(users: seq<User>, username: string) {
    exists i :: 0 <= i < |users| && users[i].username == username
  }

  /**
   * Creates an active user unless the username is taken. The stored hash is
   * `hashpw(password, salt)`.
   */
  method CreateUser(db: Store, name: string, username: string, password: string, role: string,
                    salt: string, hashpw: (string, string) -> string)
    returns (reply: Reply)
    requires db.Valid()
    modifies db`users, db`nextUserId
    ensures db.Valid()
    ensures UsernameTaken(old(db.users), username) ==>
              reply == Reply(false, "Username already exists.") && db.users == old(db.users)
    ensures !UsernameTaken(old(db.users), username) ==>
              reply == Reply(true, "User created successfully.") &&
              db.users == old(db.users) + [User(old(db.nextUserId), name, username, hashpw(password, salt), role, true)]
  {
    if UsernameTaken(db.users, username) {
      return Reply(false, "Username already exists.");
    }
    var hashed := hashpw(password, salt);
    db.users := db.users + [User(db.nextUserId, name, username, hashed, role, true)];
    db.nextUserId := db.nextUserId + 1;
    reply := Reply(true, "User created successfully.");
  }

  /** Adding a user takes its own username and frees or takes no other. */
  lemma {:induction false} UsernameLookupAfterAdd(users: seq<User>, u: User, username: string)
    ensures UsernameTaken(users + [u], username) <==> UsernameTaken(users, username) || u.username == username
  {
    var r := users + [u];
    assert r[|users|] == u;
    if UsernameTaken(r, username) {
      var i :| 0 <= i < |r| && r[i].username == username;
      if i < |users| { assert users[i] == r[i]; }
    }
    if UsernameTaken(users, username) {
      var i :| 0 <= i < |users| && users[i].username == username;
      assert r[i] == users[i];
    }
  }

  /** Creates an event of the given name and type with status 'Active'. */
  method CreateEvent(db: Store, name: string, eventType: string) returns (reply: Reply)
    requires db.Valid()
    modifies db`events, db`nextEventId
    ensures db.Valid()
    ensures reply == Reply(true, "Event created successfully.")
    ensures db.events == old(db.events) + [Event(old(db.nextEventId), name, eventType, "Active")]
  {
    db.events := db.events + [Event(db.nextEventId, name, eventType, "Active")];
    db.nextEventId := db.nextEventId + 1;
    reply := Reply(true, "Event created successfully.");
  }
}
