/**
 * The auth slice of the client store: the signed-in user's id, phone number,
 * full name and shops, or nothing once the user is cleared.
 */
module AuthSlice {
  import opened Wrappers

  /** A shop of the user, with the fields the profile screens edit. */
  datatype Shop = Shop(id: string, name: string, commune: string, quartier: string, address: string)

  /** The payload of `setUser`. */
  datatype User = User(id: string, phoneNumber: string, fullName: string, shops: seq<Shop>)

  /** The four fields of the state, as one value. */
  datatype AuthState = AuthState(id: Option<string>, phoneNumber: Option<string>,
                                 fullName: Option<string>, shops: seq<Shop>)

  const InitialState := AuthState(None, None, None, [])

  /** The state `setUser` leaves behind for `user`. */
  function SignedIn(user: User): AuthState {
    AuthState(Some(user.id), Some(user.phoneNumber), Some(user.fullName), user.shops)
  }

  /** The user a state describes: present when the id, phone number and full name all are. */
  function SignedInUser(st: AuthState): (r: Option<User>)
    ensures r.Some? <==> st.id.Some? && st.phoneNumber.Some? && st.fullName.Some?
  {
    if st.id.Some? && st.phoneNumber.Some? && st.fullName.Some? then
      Some(User(st.id.value, st.phoneNumber.value, st.fullName.value, st.shops))
    else None
  }

  /** The user put in by `setUser` is the user read back, and a state with a user
      is the one `setUser` makes for that user. */
  lemma SignedInRoundTrip(user: User, st: AuthState)
    ensures SignedInUser(SignedIn(user)) == Some(user)
    ensures SignedInUser(st).Some? ==> SignedIn(SignedInUser(st).value) == st
    ensures SignedInUser(InitialState).None?
  {
  }

  class AuthStore {
    var id: Option<string>
    var phoneNumber: Option<string>
    var fullName: Option<string>
    var shops: seq<Shop>

    function State(): AuthState
      reads this
    {
      AuthState(id, phoneNumber, fullName, shops)
    }

    /** The initial state: no user, no shops. */
    constructor ()
      ensures State() == InitialState
    {
      id, phoneNumber, fullName, shops := None, None, None, [];
    }

    /** `setUser`: every field takes the payload's value, so nothing of the
        previous user survives. */
    method SetUser(user: User)
      modifies this
      ensures State() == SignedIn(user)
      ensures SignedInUser(State()) == Some(user)
    {
      id := Some(user.id);
      phoneNumber := Some(user.phoneNumber);
      fullName := Some(user.fullName);
      shops := user.shops;
    }

    /** `clearUser`: back to the initial state, whatever the state was, so a
        second call changes nothing. */
    method ClearUser()
      modifies this
      ensures State() == InitialState
      ensures SignedInUser(State()).None?
    {
      id := None;
      phoneNumber := None;
      fullName := None;
      shops := [];
    }
  }
}
