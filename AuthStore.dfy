/** The client's authentication store: four fields held in one shared object,
    changed only through four actions. Every action hands `set` an object naming
    some of the fields, and `set` merges it shallowly, so an action overwrites the
    fields it names and leaves the others as they were. */
module AuthStore {

  /** A JavaScript value that may be `null`. */
  datatype Nullable<T> = Null | Value(value: T)

  /** The step recorded by `login`. */
  const AuthenticatedStep: string := "authenticated"

  /** The four fields of the store at one moment; `U` is the type of the user
      data handed in by the caller. */
  datatype StoreState<U> = StoreState(
    isAuthenticated: bool,
    user: Nullable<U>,
    token: Nullable<string>,
    currentStep: Nullable<string>)

  /** The state the store is created in. */
  function Initial<U>(): StoreState<U>
  {
    StoreState(false, Null, Null, Null)
  }

  /** `setStep(step)`: `set({ currentStep: step })` */
  function AfterSetStep<U>(s: StoreState<U>, step: Nullable<string>): StoreState<U>
  {
    s.(currentStep := step)
  }

  /** `login(userData, token)`: names all four fields. */
  function AfterLogin<U>(s: StoreState<U>, userData: Nullable<U>, token: Nullable<string>): StoreState<U>
  {
    StoreState(true, userData, token, Value(AuthenticatedStep))
  }

  /** `logout()`: names all four fields, with the values they start with. */
  function AfterLogout<U>(s: StoreState<U>): StoreState<U>
  {
    StoreState(false, Null, Null, Null)
  }

  /** `updateUser(userData)`: `set({ user: userData })` */
  function AfterUpdateUser<U>(s: StoreState<U>, userData: Nullable<U>): StoreState<U>
  {
    s.(user := userData)
  }

  /** The store object, with the fields the actions overwrite in place. */
  class Store<U> {
    var isAuthenticated: bool
    var user: Nullable<U>
    var token: Nullable<string>
    var currentStep: Nullable<string>

    /** The four fields as one value. */
    function State(): StoreState<U>
      reads this
    {
      StoreState(isAuthenticated, user, token, currentStep)
    }

    /** `create(...)`: not authenticated, and no user, token or step. */
    constructor ()
      ensures !isAuthenticated && user == Null && token == Null && currentStep == Null
      ensures State() == Initial()
    {
      isAuthenticated := false;
      user := Null;
      token := Null;
      currentStep := Null;
    }

    method SetStep(step: Nullable<string>)
      modifies this
      ensures currentStep == step
      ensures isAuthenticated == old(isAuthenticated) && user == old(user) && token == old(token)
      ensures State() == AfterSetStep(old(State()), step)
    {
      currentStep := step;
    }

    method Login(userData: Nullable<U>, token': Nullable<string>)
      modifies this
      ensures isAuthenticated && user == userData && token == token'
      ensures currentStep == Value(AuthenticatedStep)
      ensures State() == AfterLogin(old(State()), userData, token')
    {
      isAuthenticated := true;
      user := userData;
      token := token';
      currentStep := Value(AuthenticatedStep);
    }

    method Logout()
      modifies this
      ensures State() == Initial()
      ensures State() == AfterLogout(old(State()))
    {
      isAuthenticated := false;
      user := Null;
      token := Null;
      currentStep := Null;
    }

    method UpdateUser(userData: Nullable<U>)
      modifies this
      ensures user == userData
      ensures isAuthenticated == old(isAuthenticated) && token == old(token) && currentStep == old(currentStep)
      ensures State() == AfterUpdateUser(old(State()), userData)
    {
      user := userData;
    }
  }

  // ---------------------------------------------------------------------------
  // Properties of the actions.

  /** `logout` returns every state to the initial one; doing it twice is doing it
      once; and it undoes any `login`. */
  lemma LogoutRestoresInitial<U>(s: StoreState<U>, userData: Nullable<U>, token: Nullable<string>)
    ensures AfterLogout(s) == Initial()
    ensures AfterLogout(AfterLogout(s)) == AfterLogout(s)
    ensures AfterLogout(AfterLogin(s, userData, token)) == Initial()
  {
  }

  /** After `login` the store is authenticated at the authenticated step with the
      given user and token, whatever it held before. */
  lemma LoginForgetsPreviousState<U>(s1: StoreState<U>, s2: StoreState<U>, userData: Nullable<U>, token: Nullable<string>)
    ensures AfterLogin(s1, userData, token) == AfterLogin(s2, userData, token)
    ensures var t := AfterLogin(s1, userData, token);
      t.isAuthenticated && t.user == userData && t.token == token && t.currentStep == Value("authenticated")
  {
  }

  /** `setStep` and `updateUser` each touch one field: they leave the other three
      alone, the later of two calls wins, and they commute with each other. */
  lemma PartialUpdatesAreIndependent<U>(s: StoreState<U>, a: Nullable<string>, b: Nullable<string>, u: Nullable<U>, v: Nullable<U>)
    ensures var t := AfterSetStep(s, a);
      t.currentStep == a && t.isAuthenticated == s.isAuthenticated && t.user == s.user && t.token == s.token
    ensures var t := AfterUpdateUser(s, u);
      t.user == u && t.isAuthenticated == s.isAuthenticated && t.token == s.token && t.currentStep == s.currentStep
    ensures AfterSetStep(AfterSetStep(s, a), b) == AfterSetStep(s, b)
    ensures AfterUpdateUser(AfterUpdateUser(s, u), v) == AfterUpdateUser(s, v)
    ensures AfterSetStep(AfterUpdateUser(s, u), a) == AfterUpdateUser(AfterSetStep(s, a), u)
  {
  }
}
