/**
  The access gate in front of the dashboard: a signed-in flag kept in
  component state and mirrored under one local-storage key, so that a
  reload stays signed in.
 */
module AuthProvider {

  import opened Wrappers
  import opened Storage

  /** The storage key of the signed-in mark. */
  const AuthKey: string := "healthmonitor_auth"
  /** The one code `login` accepts. */
  const AccessCode: string := "afreentaj"

  /** The stored mark reads as signed in: the key holds exactly "true". */
  predicate MarkedSignedIn(items: map<string, string>) {
    AuthKey in items && items[AuthKey] == "true"
  }

  class Gate {

    var isAuthenticated: bool
    const storage: LocalStorage

    /** The flag and the stored mark agree. */
    predicate Synced()
      reads this, storage
    {
      isAuthenticated <==> MarkedSignedIn(storage.items)
    }

    /** The provider's first render: `useState(false)`, whatever storage holds. */
    constructor (storage: LocalStorage)
      ensures !isAuthenticated && this.storage == storage
    {
      isAuthenticated := false;
      this.storage := storage;
    }

    /**
      The mount effect: the flag is set when the stored mark is exactly
      "true"; any other value, or none, leaves it as it is. Run on the
      initial state, it leaves the flag and the mark in agreement.
     */
    method Init()
      modifies this`isAuthenticated
      ensures isAuthenticated <==> old(isAuthenticated) || storage.GetItem(AuthKey) == Some("true")
      ensures !old(isAuthenticated) ==> Synced()
    {
      var authStatus := storage.GetItem(AuthKey);
      if authStatus == Some("true") {
        isAuthenticated := true;
      }
    }

    /**
      `login(code)`: accepts exactly the access code, and then sets the flag
      and stores the mark; a wrong code changes nothing.
     */
    method Login(code: string) returns (ok: bool)
      modifies this`isAuthenticated, storage
      ensures ok <==> code == AccessCode
      ensures ok ==> isAuthenticated && storage.items == old(storage.items)[AuthKey := "true"]
      ensures !ok ==> isAuthenticated == old(isAuthenticated) && storage.items == old(storage.items)
      ensures old(Synced()) ==> Synced()
    {
      if code == AccessCode {
        isAuthenticated := true;
        storage.SetItem(AuthKey, "true");
        return true;
      }
      return false;
    }

    /**
      `logout`: clears the flag and removes the mark, leaving both in
      agreement; on a state it already produced it changes nothing, so
      logging out twice is logging out once.
     */
    method Logout()
      modifies this`isAuthenticated, storage
      ensures !isAuthenticated && storage.items == old(storage.items) - {AuthKey}
      ensures Synced()
      ensures old(!isAuthenticated && AuthKey !in storage.items) ==> storage.items == old(storage.items)
    {
      isAuthenticated := false;
      storage.RemoveItem(AuthKey);
    }
  }

  /**
    `useAuth()`: the context of the enclosing provider, or the error it
    throws when there is none.
   */
  function UseAuth(context: Option<Gate>): (r: Result<Gate, string>)
    ensures r.Err? <==> context.None?
    ensures r.Err? ==> r.error == "useAuth must be used within an AuthProvider"
    ensures r.Ok? ==> r.value == context.value
  {
    match context
    case None => Err("useAuth must be used within an AuthProvider")
    case Some(gate) => Ok(gate)
  }

  /**
    A login on one page load carries over to the next: a fresh provider over
    the same storage starts signed out and its mount effect signs it in
    exactly when the code was right or the mark was already stored.
   */
  method ReloadAfterLogin(items: map<string, string>, code: string) returns (signedIn: bool)
    ensures signedIn <==> code == AccessCode || MarkedSignedIn(items)
  {
    var storage := new LocalStorage(items);
    var gate := new Gate(storage);
    gate.Init();
    var ok := gate.Login(code);
    var reloaded := new Gate(storage);
    reloaded.Init();
    signedIn := reloaded.isAuthenticated;
  }

  /** After a logout the next page load starts signed out, whatever was stored before. */
  method ReloadAfterLogout(items: map<string, string>) returns (signedIn: bool)
    ensures !signedIn
  {
    var storage := new LocalStorage(items);
    var gate := new Gate(storage);
    gate.Init();
    gate.Logout();
    var reloaded := new Gate(storage);
    reloaded.Init();
    signedIn := reloaded.isAuthenticated;
  }
}
