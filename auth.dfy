/** The session state of the authentication context: the signed-in user and the
    loading flag, restored from and saved to the two storage keys `@logged` and
    `@user`. */
module Auth {
  import Js

  datatype AuthUser = AuthUser(id: int, nome: string, email: string, role: string)

  /** What `@user` holds: nothing, the empty string, the JSON text of a user, or text
      `JSON.parse` rejects. */
  datatype StoredUser = Missing | EmptyText | UserJson(user: AuthUser) | Malformed

  /** What `hydrate` does to `user`: set it, or leave it because `JSON.parse` threw. */
  datatype HydrateStep = SetUser(user: Js.Option<AuthUser>) | Threw

  /** The decision of `hydrate` over the two stored values. */
  function HydrateOutcome(flag: Js.Option<string>, raw: StoredUser): (h: HydrateStep)
    ensures h == Threw <==> flag == Js.Some("true") && raw.Malformed?
    ensures h.SetUser? && h.user.Some? <==> flag == Js.Some("true") && raw.UserJson?
    ensures h.SetUser? && h.user.Some? ==> h.user.value == raw.user
  {
    if flag == Js.Some("true") && !raw.Missing? && !raw.EmptyText? then
      match raw
      case UserJson(u) => SetUser(Js.Some(u))
      case Malformed => Threw
    else SetUser(Js.None)
  }

  class Session {
    var storedLogged: Js.Option<string>
    var storedUser: StoredUser
    var user: Js.Option<AuthUser>
    var loading: bool

    /** Mounting the provider over what storage already holds: no user, loading. */
    constructor (logged: Js.Option<string>, raw: StoredUser)
      ensures storedLogged == logged && storedUser == raw
      ensures user == Js.None && loading
    {
      storedLogged, storedUser := logged, raw;
      user, loading := Js.None, true;
    }

    /** `isLogged`, which is `!!user`. */
    predicate IsLogged()
      reads this
    {
      user.Some?
    }

    /** `hydrate`; `readOk` is whether the two reads succeed. `loading` is false on
        every exit, the throwing ones included, and a throw leaves `user` as it was. */
    method Hydrate(readOk: bool)
      modifies this
      ensures !loading
      ensures storedLogged == old(storedLogged) && storedUser == old(storedUser)
      ensures !readOk ==> user == old(user)
      ensures readOk ==>
                match HydrateOutcome(storedLogged, storedUser)
                case SetUser(u) => user == u
                case Threw => user == old(user)
    {
      if readOk {
        match HydrateOutcome(storedLogged, storedUser) {
          case SetUser(u) => user := u;
          case Threw =>
        }
      }
      loading := false;
    }

    /** `login(u)`; `flagOk` and `userOk` are the outcomes of the two writes, in order.
        A failed write rejects and skips everything after it. */
    method Login(u: AuthUser, flagOk: bool, userOk: bool)
      modifies this
      ensures loading == old(loading)
      ensures storedLogged == (if flagOk then Js.Some("true") else old(storedLogged))
      ensures storedUser == (if flagOk && userOk then UserJson(u) else old(storedUser))
      ensures user == (if flagOk && userOk then Js.Some(u) else old(user))
      ensures flagOk && userOk ==> HydrateOutcome(storedLogged, storedUser) == SetUser(Js.Some(u))
    {
      if !flagOk {
        return;
      }
      storedLogged := Js.Some("true");
      if !userOk {
        return;
      }
      storedUser := UserJson(u);
      user := Js.Some(u);
    }

    /** `logout`: both keys are removed together; a rejected removal skips the reset. */
    method Logout(removeOk: bool)
      modifies this
      ensures loading == old(loading)
      ensures removeOk ==> storedLogged == Js.None && storedUser == Missing && user == Js.None
      ensures !removeOk ==> storedLogged == old(storedLogged) && storedUser == old(storedUser) && user == old(user)
      ensures removeOk ==> HydrateOutcome(storedLogged, storedUser) == SetUser(Js.None)
    {
      if removeOk {
        storedLogged, storedUser := Js.None, Missing;
        user := Js.None;
      }
    }
  }

  /** A session that logs in and later hydrates (say after a restart) is signed in
      as the same user; after a logout, hydrating signs nobody in. */
  method LoginSurvivesHydrate(s: Session, u: AuthUser)
    modifies s
    ensures s.user == Js.Some(u) && s.IsLogged() && !s.loading
  {
    s.Login(u, true, true);
    s.Hydrate(true);
  }

  method LogoutSurvivesHydrate(s: Session)
    modifies s
    ensures s.user == Js.None && !s.IsLogged() && !s.loading
  {
    s.Logout(true);
    s.Hydrate(true);
  }
}
