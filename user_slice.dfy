/**
 * The client-side store of the signed-in user: one slot, empty at start,
 * overwritten by every `saveUser`.
 */
module UserSlice {
  import opened Wrappers

  /** The user as saved: every field may be missing. */
  datatype User = User(id: Option<string>, email: Option<string>, createdAt: Option<string>, phone: Option<string>)

  class UserStore {
    /** The state's only field; `None` is `null`. */
    var user: Option<User>

    /** The initial state: no user. */
    constructor ()
      ensures user == None
    {
      user := None;
    }

    /** `saveUser(payload)`: the slot holds the payload. */
    method SaveUser(payload: User)
      modifies this
      ensures user == Some(payload)
    {
      user := Some(payload);
    }
  }

  /** Saving the same payload twice leaves the store as one save does. */
  method SaveTwice(store: UserStore, payload: User)
    modifies store
    ensures store.user == Some(payload)
  {
    store.SaveUser(payload);
    var once := store.user;
    store.SaveUser(payload);
    assert store.user == once;
  }

  /** Between two saves the later one wins, whatever the earlier saved. */
  method LastSaveWins(store: UserStore, first: User, second: User)
    modifies store
    ensures store.user == Some(second)
  {
    store.SaveUser(first);
    store.SaveUser(second);
  }
}
