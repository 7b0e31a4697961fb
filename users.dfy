/**
 * The `Users` table (db/models/users.py): one record per chat user, keyed by
 * the external id `uid`, with an auto-increment primary key `id`.
 *
 * The table is the field `rows` of a `Registry` object, a map from `uid` to
 * the record; the ORM queries used by the handlers are its methods. The
 * clock is a parameter (`now`).
 */
module Users {
  import opened Wrappers

  /** Instants, as the ORM stores them (seconds, say). */
  type Timestamp = int

  /** `username` is a CharField of at most this many characters. */
  const USERNAME_MAX_LENGTH := 100

  /** One row: primary key, external id, optional username, two timestamps, block flag. */
  datatype User = User(
    id: nat,
    uid: int,
    username: Option<string>,
    registeredAt: Timestamp,
    lastActive: Timestamp,
    isBlocked: bool)

  /** `DoesNotExist` from a lookup; `IntegrityError` on a duplicate uid; `ValidationError` on an over-long username. */
  datatype DbError = DoesNotExist | IntegrityError | ValidationError

  /** The whole table: rows by uid, and the next primary key to hand out. */
  datatype Table = Table(rows: map<int, User>, nextId: nat)

  predicate UsernameFits(username: Option<string>)
  {
    username.None? || |username.value| <= USERNAME_MAX_LENGTH
  }

  /**
   * The table's constraints: each row is filed under its own uid (so uid is
   * unique), primary keys are positive, below `nextId` and distinct, and
   * usernames fit the column.
   */
  ghost predicate WellFormed(t: Table)
  {
    && 0 < t.nextId
    && (forall uid :: uid in t.rows ==>
          t.rows[uid].uid == uid && 0 < t.rows[uid].id < t.nextId && UsernameFits(t.rows[uid].username))
    && (forall u, v :: u in t.rows && v in t.rows && u != v ==> t.rows[u].id != t.rows[v].id)
  }

  /** The row a creation inserts: the next primary key, the given uid and username, both timestamps `now`, not blocked. */
  function NewUser(t: Table, uid: int, username: Option<string>, now: Timestamp): (u: User)
    ensures u.uid == uid && u.username == username && u.id == t.nextId
    ensures !u.isBlocked && u.registeredAt == now && u.lastActive == now
  {
    User(t.nextId, uid, username, now, now, false)
  }

  /** Creating a row: fails on a duplicate uid or an over-long username, otherwise adds exactly one row. */
  function Insert(t: Table, uid: int, username: Option<string>, now: Timestamp): (r: Result<Table, DbError>)
    ensures r.Success? <==> uid !in t.rows && UsernameFits(username)
    ensures r.Success? ==>
      && r.value.rows.Keys == t.rows.Keys + {uid}
      && r.value.rows[uid] == NewUser(t, uid, username, now)
      && (forall v :: v in t.rows ==> r.value.rows[v] == t.rows[v])
    ensures r.Success? && WellFormed(t) ==> WellFormed(r.value) && |r.value.rows| == |t.rows| + 1
  {
    if uid in t.rows then Failure(IntegrityError)
    else if !UsernameFits(username) then Failure(ValidationError)
    else
      var grown := Table(t.rows[uid := NewUser(t, uid, username, now)], t.nextId + 1);
      assert WellFormed(t) ==> WellFormed(grown) by {
        if WellFormed(t) {
          forall u | u in grown.rows
            ensures grown.rows[u].uid == u && 0 < grown.rows[u].id < grown.nextId
            ensures UsernameFits(grown.rows[u].username)
          {
            if u != uid {
              assert grown.rows[u] == t.rows[u];
            }
          }
          forall u, v | u in grown.rows && v in grown.rows && u != v
            ensures grown.rows[u].id != grown.rows[v].id
          {
            if u != uid && v != uid {
              assert grown.rows[u] == t.rows[u] && grown.rows[v] == t.rows[v];
            }
          }
        }
      }
      Success(grown)
  }

  /** Setting the last-activity time of the row with this uid, if there is one; nothing else changes. */
  function Touch(t: Table, uid: int, date: Timestamp): (r: Table)
    ensures r.nextId == t.nextId && r.rows.Keys == t.rows.Keys
    ensures forall v :: v in t.rows && v != uid ==> r.rows[v] == t.rows[v]
    ensures uid in t.rows ==> r.rows[uid] == t.rows[uid].(lastActive := date)
    ensures WellFormed(t) ==> WellFormed(r)
  {
    if uid in t.rows then Table(t.rows[uid := t.rows[uid].(lastActive := date)], t.nextId) else t
  }

  /** The persistent table, updated in place by the handlers. */
  class Registry {
    var rows: map<int, User>
    var nextId: nat

    ghost function State(): Table
      reads this
    {
      Table(rows, nextId)
    }

    ghost predicate Valid()
      reads this
    {
      WellFormed(State())
    }

    /** An empty table whose first primary key will be 1. */
    constructor ()
      ensures Valid() && rows == map[] && nextId == 1
    {
      rows := map[];
      nextId := 1;
    }

    /** The lookup that tolerates absence: the row filed under `uid`, or none. */
    method GetOrNone(uid: int) returns (u: Option<User>)
      requires Valid()
      ensures u.Some? <==> uid in rows
      ensures u.Some? ==> u.value == rows[uid] && u.value.uid == uid
    {
      if uid in rows {
        u := Some(rows[uid]);
      } else {
        u := None;
      }
    }

    /** The strict lookup: the row filed under `uid`, or the `DoesNotExist` error when there is none. */
    method Get(uid: int) returns (r: Result<User, DbError>)
      requires Valid()
      ensures r.Success? <==> uid in rows
      ensures r.Success? ==> r.value == rows[uid] && r.value.uid == uid
      ensures r.Failure? ==> r.error == DoesNotExist
    {
      if uid in rows {
        r := Success(rows[uid]);
      } else {
        r := Failure(DoesNotExist);
      }
    }

    /** Creates the row for a new user: the table moves by `Insert`, and stays as it was when the insert fails. */
    method Create(uid: int, username: Option<string>, now: Timestamp) returns (r: Result<User, DbError>)
      requires Valid()
      modifies this
      ensures Valid()
      ensures r.Success? <==> Insert(old(State()), uid, username, now).Success?
      ensures r.Success? ==> State() == Insert(old(State()), uid, username, now).value && r.value == rows[uid]
      ensures r.Failure? ==> State() == old(State())
    {
      var inserted := Insert(Table(rows, nextId), uid, username, now);
      match inserted
      case Failure(e) =>
        r := Failure(e);
      case Success(t) =>
        rows, nextId := t.rows, t.nextId;
        r := Success(rows[uid]);
    }

    /** The bulk update of `last_active` for the rows with this uid (at most one), returning how many changed. */
    method UpdateLastActive(uid: int, date: Timestamp) returns (count: nat)
      requires Valid()
      modifies this
      ensures Valid()
      ensures State() == Touch(old(State()), uid, date)
      ensures count == if uid in old(rows) then 1 else 0
    {
      if uid in rows {
        rows := rows[uid := rows[uid].(lastActive := date)];
        count := 1;
      } else {
        count := 0;
      }
    }
  }
}
