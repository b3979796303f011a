/**
 * The user table (src/db/user.ts) and check-then-insert registration
 * (`registerUser` in src/services/alephium.ts, `registerUserExclusive` in
 * src/alephium.ts). The table is a repository object holding the saved rows
 * in insertion order and the next primary key it will hand out; the mutex
 * around registration makes each call atomic, which is how the methods here
 * behave.
 */
module Users {
  import opened Wrappers
  import LedgerErrors

  /**
   * A user row. `id` is absent until the first save assigns it; `address` is
   * what registration derives from the id (the services code sets it even
   * though the entity declares no such column).
   */
  datatype User = User(id: Option<nat>, telegramId: int, telegramUsername: string, address: Option<string>)

  /** `new User(telegramId, telegramUsername)`: no id and no address yet. */
  function NewUser(telegramId: int, telegramUsername: string): (u: User)
    ensures u.id.None? && u.address.None?
    ensures u.telegramId == telegramId && u.telegramUsername == telegramUsername
  {
    User(None, telegramId, telegramUsername, None)
  }

  /** `existsBy({ telegramId })` on the rows. */
  predicate HasTelegramId(rows: seq<User>, telegramId: int) {
    exists i :: 0 <= i < |rows| && rows[i].telegramId == telegramId
  }

  /** `findOneBy({ telegramId })`: the first row with that Telegram id, `null` when there is none. */
  function FindByTelegramId(rows: seq<User>, telegramId: int): (r: Option<User>)
    ensures r.None? <==> !HasTelegramId(rows, telegramId)
    ensures r.Some? ==> r.value in rows && r.value.telegramId == telegramId
  {
    if rows == [] then None
    else if rows[0].telegramId == telegramId then Some(rows[0])
    else
      assert forall i :: 1 <= i < |rows| ==> rows[i] == rows[1..][i - 1];
      FindByTelegramId(rows[1..], telegramId)
  }

  /** The rows after `save` of a user that already has an id: the row with that id now holds `u`. */
  function ReplaceById(rows: seq<User>, u: User): (r: seq<User>)
    ensures |r| == |rows|
    ensures forall i :: 0 <= i < |r| ==> r[i] == (if rows[i].id == u.id then u else rows[i])
  {
    seq(|rows|, i requires 0 <= i < |rows| => if rows[i].id == u.id then u else rows[i])
  }

  /** Every saved row has an id below the next one, and no two rows share an id. */
  ghost predicate IdsValid(rows: seq<User>, nextId: nat) {
    (forall i :: 0 <= i < |rows| ==> rows[i].id.Some? && rows[i].id.value < nextId)
    && (forall i, j :: 0 <= i < j < |rows| ==> rows[i].id != rows[j].id)
  }

  /** The repository of users, backed by an auto-increment primary key. */
  class UserStore {
    var rows: seq<User>
    var nextId: nat

    ghost predicate Valid()
      reads this
    {
      IdsValid(rows, nextId)
    }

    /** An empty table; SQLite hands out keys from 1. */
    constructor()
      ensures Valid() && rows == [] && nextId == 1
    {
      rows := [];
      nextId := 1;
    }

    method ExistsBy(telegramId: int) returns (found: bool)
      ensures found <==> HasTelegramId(rows, telegramId)
    {
      found := FindByTelegramId(rows, telegramId).Some?;
    }

    method FindOneBy(telegramId: int) returns (u: Option<User>)
      ensures u == FindByTelegramId(rows, telegramId)
    {
      u := FindByTelegramId(rows, telegramId);
    }

    method Count() returns (n: nat)
      ensures n == |rows|
    {
      n := |rows|;
    }

    /**
     * `save`: a user without an id is inserted under the next key; a user
     * with an id overwrites the row holding that id, or is inserted under it
     * when no row does.
     */
    method Save(u: User) returns (saved: User)
      requires Valid()
      modifies this
      ensures Valid()
      ensures u.id.None? ==> saved == u.(id := Some(old(nextId))) && rows == old(rows) + [saved]
      ensures u.id.Some? && (exists i :: 0 <= i < |old(rows)| && old(rows)[i].id == u.id) ==>
        saved == u && rows == ReplaceById(old(rows), u)
      ensures u.id.Some? && (forall i :: 0 <= i < |old(rows)| ==> old(rows)[i].id != u.id) ==>
        saved == u && rows == old(rows) + [u]
    {
      if u.id.None? {
        saved := u.(id := Some(nextId));
        rows := rows + [saved];
        nextId := nextId + 1;
      } else {
        saved := u;
        if exists i :: 0 <= i < |rows| && rows[i].id == u.id {
          rows := ReplaceById(rows, u);
        } else {
          rows := rows + [u];
          if nextId <= u.id.value {
            nextId := u.id.value + 1;
          }
        }
      }
    }
  }

  /**
   * Registration: rejects with "user already registered", writing nothing,
   * when the Telegram id is already stored; otherwise saves the user (which
   * assigns the next key unless the user already carries an id), sets the
   * address derived from that id and saves again. `derive` stands for the
   * wallet derivation from the mnemonic and the id.
   */
  method RegisterUser(store: UserStore, newUser: User, derive: nat -> string) returns (r: Result<User, string>)
    requires store.Valid()
    modifies store
    ensures store.Valid()
    ensures HasTelegramId(old(store.rows), newUser.telegramId) ==>
      r == Failure(LedgerErrors.UserAlreadyRegistered) && store.rows == old(store.rows) && store.nextId == old(store.nextId)
    ensures !HasTelegramId(old(store.rows), newUser.telegramId) ==>
      var id := if newUser.id.Some? then newUser.id.value else old(store.nextId);
      r == Success(newUser.(id := Some(id), address := Some(derive(id))))
      && store.rows == SavedRows(old(store.rows), r.value)
  {
    var alreadyRegistered := store.ExistsBy(newUser.telegramId);
    if alreadyRegistered {
      return Failure(LedgerErrors.UserAlreadyRegistered);
    }
    var rows0 := store.rows;
    var userWithId := store.Save(newUser);
    userWithId := userWithId.(address := Some(derive(userWithId.id.value)));
    var rows1 := store.rows;
    assert rows1 == SavedRows(rows0, userWithId.(address := newUser.address));
    SavedRowsHasId(rows0, userWithId.(address := newUser.address));
    var saved := store.Save(userWithId);
    SaveTwice(rows0, userWithId.(address := newUser.address), userWithId);
    r := Success(saved);
  }

  /** The rows after saving `u`, which carries an id: the row with that id becomes `u`, or `u` is appended. */
  function SavedRows(rows: seq<User>, u: User): (r: seq<User>)
    ensures (exists i :: 0 <= i < |rows| && rows[i].id == u.id) ==> r == ReplaceById(rows, u)
    ensures (forall i :: 0 <= i < |rows| ==> rows[i].id != u.id) ==> r == rows + [u]
  {
    if exists i :: 0 <= i < |rows| && rows[i].id == u.id then ReplaceById(rows, u) else rows + [u]
  }

  /** After a save, some row holds the saved id. */
  lemma SavedRowsHasId(rows: seq<User>, u: User)
    ensures exists i :: 0 <= i < |SavedRows(rows, u)| && SavedRows(rows, u)[i].id == u.id
  {
    var r := SavedRows(rows, u);
    if exists i :: 0 <= i < |rows| && rows[i].id == u.id {
      var i :| 0 <= i < |rows| && rows[i].id == u.id;
      assert r[i].id == u.id;
    } else {
      assert r[|rows|] == u;
    }
  }

  /** Saving a user and then the same id again is one save of the second value. */
  lemma SaveTwice(rows: seq<User>, u: User, v: User)
    requires u.id == v.id
    ensures ReplaceById(SavedRows(rows, u), v) == SavedRows(rows, v)
  {
    var a := ReplaceById(SavedRows(rows, u), v);
    var b := SavedRows(rows, v);
    assert |a| == |b|;
    forall i | 0 <= i < |a| ensures a[i] == b[i] {
    }
  }

  /**
   * Registering the same user twice, as the caller's object is after the
   * first call (`save` has given it its id and address): the first call
   * stores one row, the second rejects and the count stays where the first
   * call left it.
   */
  method RegisterTwice(store: UserStore, newUser: User, derive: nat -> string) returns (first: Result<User, string>, second: Result<User, string>)
    requires store.Valid() && newUser.id.None?
    requires !HasTelegramId(store.rows, newUser.telegramId)
    modifies store
    ensures first.Success? && first.value.telegramId == newUser.telegramId && first.value.id.Some?
    ensures second == Failure(LedgerErrors.UserAlreadyRegistered)
    ensures |store.rows| == |old(store.rows)| + 1
  {
    first := RegisterUser(store, newUser, derive);
    assert store.rows[|store.rows| - 1].telegramId == newUser.telegramId;
    second := RegisterUser(store, first.value, derive);
  }

  /** After a successful registration the user is found by its Telegram id (the `startFct` fallback relies on this). */
  lemma {:induction false} RegisteredIsFound(rows: seq<User>, u: User)
    requires !HasTelegramId(rows, u.telegramId)
    ensures FindByTelegramId(rows + [u], u.telegramId) == Some(u)
  {
    if rows != [] {
      assert (rows + [u])[1..] == rows[1..] + [u];
      assert !HasTelegramId(rows[1..], u.telegramId) by {
        forall i | 0 <= i < |rows[1..]| ensures rows[1..][i].telegramId != u.telegramId {
          assert rows[1..][i] == rows[i + 1];
        }
      }
      RegisteredIsFound(rows[1..], u);
    }
  }
}
