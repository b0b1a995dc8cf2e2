/** The route handlers of the relay service over an in-memory store: account
    registration, lookup, update and deletion, destination registration,
    listing and deletion, and the incoming-data route that forwards a
    payload to every destination of the calling account. */
module Views {
  import opened Http
  import opened Records
  import opened Relay
  import Jwt

  /** The payload field that carries the caller's token. */
  const TokenField: string := "app_secret_token"

  const TokenMissing: string := "Token Doesn't exist."
  const AccountExists: string := "Account already exists change your mail ID or account"
  const AccountNotFound: string := "Account not found"
  const AccountNotFoundOrWrongToken: string := "Account not found or token is wrong."
  const NoChanges: string := "No changes detected. Nothing to update."
  const DestinationExists: string := "Destination already exist."
  const InvalidData: string := "Invalid Data"
  const Unauthenticated: string := "Unauthenticated"

  const AccountUpdated: string := "Account updated successfully"
  const AccountDeleted: string := "Account and associated destinations deleted successfully"
  const DestinationCreated: string := "Destination created successfully"
  const DestinationsDeleted: string := "Destinations deleted successfully"

  /** The guard every token-taking handler opens with: an empty token fails
      with the handler's own status and detail, a token that does not decode
      escapes as DecodeError, and otherwise the account_id claim is returned. */
  function Resolve(token: string, status: int, detail: string): (r: Response<string>)
    ensures token == [] ==> r == HttpError(status, detail)
    ensures token != [] ==> (r == DecodeError <==> Jwt.Decode(token).None?)
    ensures r.Ok? ==> Jwt.Decode(token) == Some(r.value)
    ensures token != [] && Jwt.Decode(token).Some? ==> r == Ok(Jwt.Decode(token).value)
    ensures forall a :: token == Jwt.Encode(a) ==> r == Ok(a)
  {
    if token == [] then HttpError(status, detail)
    else
      match Jwt.Decode(token)
      case None => DecodeError
      case Some(a) => Ok(a)
  }

  /** The token field of an incoming payload, "" when it is absent. */
  function TokenOf(data: Payload): (token: string)
    ensures token != [] ==> TokenField in data && data[TokenField] == token
    ensures TokenField !in data ==> token == []
    ensures TokenField in data ==> token == data[TokenField]
  {
    if TokenField in data then data[TokenField] else ""
  }

  /** The account's email, name and website already equal the form's. */
  predicate SameDetails(a: Account, form: AccountForm): (same: bool)
    ensures same <==> a.(email := form.email, accountName := form.accountName, website := form.website) == a
  {
    a.email == form.email && a.accountName == form.accountName && a.website == form.website
  }

  /** The account after an update: the form's email, name and website, the
      rest of the row kept. */
  function Revised(a: Account, form: AccountForm): (r: Account)
    ensures SameDetails(r, form)
    ensures r.id == a.id && r.accountId == a.accountId && r.appSecretToken == a.appSecretToken
  {
    a.(email := form.email, accountName := form.accountName, website := form.website)
  }

  /** The row registration adds for this form. */
  function NewAccount(form: AccountForm, id: nat): (a: Account)
    ensures a.id == id && a.email == form.email && a.accountId == form.accountId
    ensures a.accountName == form.accountName && a.website == form.website
    ensures Jwt.Decode(a.appSecretToken) == Some(a.accountId)
  {
    Account(id, form.email, form.accountId, form.accountName, Jwt.Encode(form.accountId), form.website)
  }

  /** What holds of the two tables between requests:
      - no two accounts share an account_id;
      - primary keys are distinct and below the next one to issue;
      - each account holds the token issued for its account_id;
      - every destination's owner is an existing account (no orphans);
      - no two destinations are equal, so no owner holds the same
        (url, method, headers) twice. */
  predicate StoreInvariant(accounts: seq<Account>, ds: seq<Destination>, nextId: nat)
  {
    && (forall i, j :: 0 <= i < j < |accounts| ==> accounts[i].accountId != accounts[j].accountId)
    && (forall i, j :: 0 <= i < j < |accounts| ==> accounts[i].id != accounts[j].id)
    && (forall i :: 0 <= i < |accounts| ==> accounts[i].id < nextId)
    && (forall i :: 0 <= i < |accounts| ==> accounts[i].appSecretToken == Jwt.Encode(accounts[i].accountId))
    && (forall d :: d in ds ==> HasAccount(accounts, d.owner))
    && Distinct(ds)
  }

  /** Registration keeps the invariant when the form clashes with no account. */
  lemma CreateAccountKeepsInvariant(accounts: seq<Account>, ds: seq<Destination>, nextId: nat, form: AccountForm)
    requires StoreInvariant(accounts, ds, nextId)
    requires !Clashes(accounts, form)
    ensures StoreInvariant(accounts + [NewAccount(form, nextId)], ds, nextId + 1)
  {
    var after := accounts + [NewAccount(form, nextId)];
    forall d | d in ds ensures HasAccount(after, d.owner) {
      var i :| 0 <= i < |accounts| && accounts[i].accountId == d.owner;
      assert after[i] == accounts[i];
    }
  }

  /** An update keeps the invariant: it never touches account_id, id or token. */
  lemma UpdateAccountKeepsInvariant(accounts: seq<Account>, ds: seq<Destination>, nextId: nat, i: nat, form: AccountForm)
    requires StoreInvariant(accounts, ds, nextId)
    requires i < |accounts|
    ensures StoreInvariant(accounts[i := Revised(accounts[i], form)], ds, nextId)
  {
    var after := accounts[i := Revised(accounts[i], form)];
    forall d | d in ds ensures HasAccount(after, d.owner) {
      var k :| 0 <= k < |accounts| && accounts[k].accountId == d.owner;
      assert after[k].accountId == d.owner;
    }
  }

  /** Deleting account i with its destinations keeps the invariant, and
      leaves no account with that account_id. */
  lemma DeleteAccountKeepsInvariant(accounts: seq<Account>, ds: seq<Destination>, nextId: nat, i: nat)
    requires StoreInvariant(accounts, ds, nextId)
    requires i < |accounts|
    ensures var after := accounts[..i] + accounts[i + 1..];
      && StoreInvariant(after, NotOwnedBy(ds, accounts[i].accountId), nextId)
      && !HasAccount(after, accounts[i].accountId)
  {
    var gone := accounts[i].accountId;
    var after := accounts[..i] + accounts[i + 1..];
    assert forall k :: 0 <= k < |after| ==> after[k] == accounts[if k < i then k else k + 1];
    NotOwnedByMembers(ds, gone);
    forall d | d in NotOwnedBy(ds, gone) ensures HasAccount(after, d.owner) {
      var k :| 0 <= k < |accounts| && accounts[k].accountId == d.owner;
      assert k != i;
      assert after[if k < i then k else k - 1] == accounts[k];
    }
    NotOwnedByDistinct(ds, gone);
  }

  /** Registering a destination not yet in the table, for an existing
      account, keeps the invariant. */
  lemma CreateDestinationKeepsInvariant(accounts: seq<Account>, ds: seq<Destination>, nextId: nat, d: Destination)
    requires StoreInvariant(accounts, ds, nextId)
    requires HasAccount(accounts, d.owner) && d !in ds
    ensures StoreInvariant(accounts, ds + [d], nextId)
  {
  }

  /** Deleting one owner's destinations keeps the invariant. */
  lemma DeleteDestinationsKeepsInvariant(accounts: seq<Account>, ds: seq<Destination>, nextId: nat, owner: string)
    requires StoreInvariant(accounts, ds, nextId)
    ensures StoreInvariant(accounts, NotOwnedBy(ds, owner), nextId)
  {
    NotOwnedByMembers(ds, owner);
    NotOwnedByDistinct(ds, owner);
  }

  /** The in-memory store: the accounts table, the destinations table and the
      next primary key to issue. */
  class Store {
    var accounts: seq<Account>
    var destinations: seq<Destination>
    var nextId: nat

    ghost predicate Valid()
      reads this
    {
      StoreInvariant(accounts, destinations, nextId)
    }

    constructor ()
      ensures Valid()
      ensures accounts == [] && destinations == []
    {
      accounts, destinations, nextId := [], [], 1;
    }

    /** POST /accounts: refuses a form whose email or account_id is already
        taken; otherwise adds the account with a freshly issued token and
        returns that token. */
    method CreateAccount(form: AccountForm) returns (r: Response<string>)
      requires Valid()
      modifies this
      ensures Valid()
      ensures destinations == old(destinations)
      ensures Clashes(old(accounts), form) ==>
        r == HttpError(400, AccountExists) && accounts == old(accounts) && nextId == old(nextId)
      ensures !Clashes(old(accounts), form) ==>
        && r == Ok(Jwt.Encode(form.accountId))
        && accounts == old(accounts) + [NewAccount(form, old(nextId))]
        && nextId == old(nextId) + 1
    {
      if Clashes(accounts, form) {
        return HttpError(400, AccountExists);
      }
      var account := NewAccount(form, nextId);
      CreateAccountKeepsInvariant(accounts, destinations, nextId, form);
      accounts := accounts + [account];
      nextId := nextId + 1;
      r := Ok(account.appSecretToken);
    }

    /** GET /accounts: the account named by the token's claim. */
    method GetAccount(token: string) returns (r: Response<Account>)
      requires Valid()
      ensures !Resolve(token, 404, TokenMissing).Ok? ==> r == Resolve(token, 404, TokenMissing).Forward()
      ensures Resolve(token, 404, TokenMissing).Ok? ==>
        var a := Resolve(token, 404, TokenMissing).value;
        && (r.Ok? <==> HasAccount(accounts, a))
        && (r.Ok? ==> r.value in accounts && r.value.accountId == a && r.value.appSecretToken == Jwt.Encode(a))
        && (!r.Ok? ==> r == HttpError(404, AccountNotFoundOrWrongToken))
    {
      var claim := Resolve(token, 404, TokenMissing);
      if !claim.Ok? {
        return claim.Forward();
      }
      var found := FindAccount(accounts, claim.value);
      if found.None? {
        return HttpError(404, AccountNotFoundOrWrongToken);
      }
      r := Ok(accounts[found.value]);
    }

    /** PUT /accounts: refuses a form that changes none of email, name and
        website; otherwise overwrites the fields that differ. */
    method UpdateAccount(token: string, form: AccountForm) returns (r: Response<string>)
      requires Valid()
      modifies this
      ensures Valid()
      ensures destinations == old(destinations) && nextId == old(nextId)
      ensures !Resolve(token, 404, TokenMissing).Ok? ==>
        r == Resolve(token, 404, TokenMissing).Forward() && accounts == old(accounts)
      ensures Resolve(token, 404, TokenMissing).Ok? ==>
        var a := Resolve(token, 404, TokenMissing).value;
        if !HasAccount(old(accounts), a) then
          r == HttpError(404, AccountNotFound) && accounts == old(accounts)
        else
          var i := FindAccount(old(accounts), a).value;
          if SameDetails(old(accounts)[i], form) then
            r == HttpError(400, NoChanges) && accounts == old(accounts)
          else
            r == Ok(AccountUpdated) && accounts == old(accounts)[i := Revised(old(accounts)[i], form)]
    {
      var claim := Resolve(token, 404, TokenMissing);
      if !claim.Ok? {
        return claim.Forward();
      }
      var found := FindAccount(accounts, claim.value);
      if found.None? {
        return HttpError(404, AccountNotFound);
      }
      var i := found.value;
      var account := accounts[i];
      if SameDetails(account, form) {
        return HttpError(400, NoChanges);
      }
      if account.email != form.email {
        account := account.(email := form.email);
      }
      if account.accountName != form.accountName {
        account := account.(accountName := form.accountName);
      }
      if account.website != form.website {
        account := account.(website := form.website);
      }
      UpdateAccountKeepsInvariant(accounts, destinations, nextId, i, form);
      accounts := accounts[i := account];
      r := Ok(AccountUpdated);
    }

    /** Deletes, one row at a time, every destination registered under `owner`. */
    method DeleteOwnedBy(owner: string)
      modifies this
      ensures destinations == NotOwnedBy(old(destinations), owner)
      ensures accounts == old(accounts) && nextId == old(nextId)
    {
      var i := 0;
      ghost var j := 0;
      while i < |destinations|
        invariant 0 <= j <= |old(destinations)|
        invariant destinations == NotOwnedBy(old(destinations)[..j], owner) + old(destinations)[j..]
        invariant i == |NotOwnedBy(old(destinations)[..j], owner)|
        invariant accounts == old(accounts) && nextId == old(nextId)
        decreases |destinations| - i
      {
        ScanStep(old(destinations), j, owner, destinations, i);
        if destinations[i].owner == owner {
          destinations := destinations[..i] + destinations[i + 1..];
        } else {
          i := i + 1;
        }
        j := j + 1;
      }
      assert old(destinations)[..j] == old(destinations);
    }

    /** DELETE /accounts: deletes the account's destinations, then the account. */
    method DeleteAccount(token: string) returns (r: Response<string>)
      requires Valid()
      modifies this
      ensures Valid()
      ensures nextId == old(nextId)
      ensures !Resolve(token, 404, TokenMissing).Ok? ==>
        r == Resolve(token, 404, TokenMissing).Forward()
        && accounts == old(accounts) && destinations == old(destinations)
      ensures Resolve(token, 404, TokenMissing).Ok? ==>
        var a := Resolve(token, 404, TokenMissing).value;
        if !HasAccount(old(accounts), a) then
          r == HttpError(404, AccountNotFound) && accounts == old(accounts) && destinations == old(destinations)
        else
          var i := FindAccount(old(accounts), a).value;
          && r == Ok(AccountDeleted)
          && accounts == old(accounts)[..i] + old(accounts)[i + 1..]
          && destinations == NotOwnedBy(old(destinations), a)
          && !HasAccount(accounts, a)
          && OwnedBy(destinations, a) == []
    {
      var claim := Resolve(token, 404, TokenMissing);
      if !claim.Ok? {
        return claim.Forward();
      }
      var found := FindAccount(accounts, claim.value);
      if found.None? {
        return HttpError(404, AccountNotFound);
      }
      var i := found.value;
      DeleteAccountKeepsInvariant(accounts, destinations, nextId, i);
      NoneLeft(destinations, claim.value);
      DeleteOwnedBy(claim.value);
      accounts := accounts[..i] + accounts[i + 1..];
      r := Ok(AccountDeleted);
    }

    /** POST /accounts/destinations: refuses a destination equal to one the
        account already has; otherwise adds it under the token's account_id. */
    method CreateDestination(token: string, form: DestinationForm) returns (r: Response<string>)
      requires Valid()
      modifies this
      ensures Valid()
      ensures accounts == old(accounts) && nextId == old(nextId)
      ensures !Resolve(token, 404, TokenMissing).Ok? ==>
        r == Resolve(token, 404, TokenMissing).Forward() && destinations == old(destinations)
      ensures Resolve(token, 404, TokenMissing).Ok? ==>
        var a := Resolve(token, 404, TokenMissing).value;
        var d := Destination(form.url, form.httpMethod, form.headers, a);
        if !HasAccount(old(accounts), a) then
          r == HttpError(404, AccountNotFound) && destinations == old(destinations)
        else if d in old(destinations) then
          r == HttpError(404, DestinationExists) && destinations == old(destinations)
        else
          r == Ok(DestinationCreated) && destinations == old(destinations) + [d]
    {
      var claim := Resolve(token, 404, TokenMissing);
      if !claim.Ok? {
        return claim.Forward();
      }
      var found := FindAccount(accounts, claim.value);
      if found.None? {
        return HttpError(404, AccountNotFound);
      }
      var d := Destination(form.url, form.httpMethod, form.headers, claim.value);
      if d in destinations {
        return HttpError(404, DestinationExists);
      }
      CreateDestinationKeepsInvariant(accounts, destinations, nextId, d);
      destinations := destinations + [d];
      r := Ok(DestinationCreated);
    }

    /** GET /accounts/destinations: the token's destinations in table order;
        an error when there are none. A non-empty answer always belongs to
        an existing account. */
    method GetDestinations(token: string) returns (r: Response<seq<Destination>>)
      requires Valid()
      ensures !Resolve(token, 404, TokenMissing).Ok? ==> r == Resolve(token, 404, TokenMissing).Forward()
      ensures Resolve(token, 404, TokenMissing).Ok? ==>
        var a := Resolve(token, 404, TokenMissing).value;
        && (OwnedBy(destinations, a) == [] ==> r == HttpError(404, AccountNotFound))
        && (OwnedBy(destinations, a) != [] ==> r == Ok(OwnedBy(destinations, a)) && HasAccount(accounts, a))
    {
      var claim := Resolve(token, 404, TokenMissing);
      if !claim.Ok? {
        return claim.Forward();
      }
      var owned := OwnedBy(destinations, claim.value);
      if owned == [] {
        return HttpError(404, AccountNotFound);
      }
      if owned == [] {
        // the handler tests the same condition a second time, with a
        // "No destinations found" reply that can never be produced
        assert false;
      }
      OwnedByMembers(destinations, claim.value);
      assert owned[0] in destinations;
      r := Ok(owned);
    }

    /** DELETE /accounts/destinations: deletes the token's destinations; an
        error when there are none, so a second call in a row fails. */
    method DeleteDestinations(token: string) returns (r: Response<string>)
      requires Valid()
      modifies this
      ensures Valid()
      ensures accounts == old(accounts) && nextId == old(nextId)
      ensures !Resolve(token, 402, TokenMissing).Ok? ==>
        r == Resolve(token, 402, TokenMissing).Forward() && destinations == old(destinations)
      ensures Resolve(token, 402, TokenMissing).Ok? ==>
        var a := Resolve(token, 402, TokenMissing).value;
        if OwnedBy(old(destinations), a) == [] then
          r == HttpError(404, AccountNotFound) && destinations == old(destinations)
        else
          && r == Ok(DestinationsDeleted)
          && destinations == NotOwnedBy(old(destinations), a)
          && OwnedBy(destinations, a) == []
    {
      var claim := Resolve(token, 402, TokenMissing);
      if !claim.Ok? {
        return claim.Forward();
      }
      if OwnedBy(destinations, claim.value) == [] {
        return HttpError(404, AccountNotFound);
      }
      DeleteDestinationsKeepsInvariant(accounts, destinations, nextId, claim.value);
      NoneLeft(destinations, claim.value);
      DeleteOwnedBy(claim.value);
      r := Ok(DestinationsDeleted);
    }

    /** POST /server/incoming_data: checks the payload, the token in it and
        the account it names, in that order and before sending anything;
        then forwards the payload to each of the account's destinations in
        table order, stopping at the first failure. Returns the requests
        handed to `send` with the outcome. */
    method ReceiveData(data: Payload, send: Request -> int) returns (sent: seq<Request>, r: Response<string>)
      ensures |data| == 0 ==> sent == [] && r == HttpError(400, InvalidData)
      ensures |data| != 0 && !Resolve(TokenOf(data), 401, Unauthenticated).Ok? ==>
        sent == [] && r == Resolve(TokenOf(data), 401, Unauthenticated).Forward()
      ensures |data| != 0 && Resolve(TokenOf(data), 401, Unauthenticated).Ok? ==>
        var a := Resolve(TokenOf(data), 401, Unauthenticated).value;
        if !HasAccount(accounts, a) then
          sent == [] && r == HttpError(401, Unauthenticated)
        else
          Delivery(sent, r) == Dispatch(OwnedBy(destinations, a), TokenOf(data), data, send)
    {
      sent := [];
      if |data| == 0 {
        return sent, HttpError(400, InvalidData);
      }
      var token := TokenOf(data);
      var claim := Resolve(token, 401, Unauthenticated);
      if !claim.Ok? {
        return sent, claim.Forward();
      }
      var found := FindAccount(accounts, claim.value);
      if found.None? {
        return sent, HttpError(401, Unauthenticated);
      }
      var account := accounts[found.value];
      sent, r := SendAll(OwnedBy(destinations, account.accountId), token, data, send);
    }
  }

  /** The send loop of the incoming-data route: walks `targets` in order,
      sends to each with the token header overwritten and the payload as
      query parameters (GET) or a JSON body (POST, PUT), and stops at the
      first unknown method or non-200 answer. */
  method SendAll(targets: seq<Destination>, token: string, data: Payload, send: Request -> int)
    returns (sent: seq<Request>, r: Response<string>)
    ensures Delivery(sent, r) == Dispatch(targets, token, data, send)
  {
    assert targets[0..] == targets && [] + Dispatch(targets, token, data, send).sent == Dispatch(targets, token, data, send).sent;
    sent := [];
    var i := 0;
    while i < |targets|
      invariant 0 <= i <= |targets|
      invariant Dispatch(targets, token, data, send) == After(sent, Dispatch(targets[i..], token, data, send))
    {
      DispatchStep(targets, i, sent, token, data, send);
      var outgoing := Outgoing(targets[i], token, data);
      if outgoing.None? {
        return sent, HttpError(400, InvalidMethod);
      }
      var req := outgoing.value;
      var status := send(req);
      sent := sent + [req];
      if status != StatusOk {
        return sent, HttpError(500, SendFailed);
      }
      i := i + 1;
    }
    r := Ok(SentMessage);
  }

  /** A caller's view: register an account, register a POST destination
      twice, relay a payload through a transport that answers 200, then
      delete the destinations twice. The assertions follow from the
      handlers' contracts, the Relay lemmas DispatchAllAccepted and
      DispatchSentInOrder, and the definitions of OwnedBy and TokenOf. */
  method ForwardingScenario()
  {
    var store := new Store();
    var created := store.CreateAccount(AccountForm("a@x.com", "acc1", "Acme", None));
    assert !Clashes([], AccountForm("a@x.com", "acc1", "Acme", None));
    assert created == Ok(Jwt.Encode("acc1"));
    var token := created.value;
    assert store.accounts[0].accountId == "acc1";

    var form := DestinationForm("http://h/ep", "POST", map[]);
    var first := store.CreateDestination(token, form);
    assert first == Ok(DestinationCreated);
    var dest := Destination("http://h/ep", "POST", map[], "acc1");
    assert store.destinations == [dest];
    var second := store.CreateDestination(token, form);
    assert second == HttpError(404, DestinationExists);

    var data := map["k" := "v", TokenField := token];
    assert TokenOf(data) == token;
    assert [dest][..0] == [];
    assert OwnedBy(store.destinations, "acc1") == [dest];
    var sent, r := store.ReceiveData(data, _ => 200);
    assert Outgoing(dest, token, data).Some?;
    DispatchAllAccepted([dest], token, data, _ => 200);
    DispatchSentInOrder([dest], token, data, _ => 200);
    assert r == Ok(SentMessage) && |sent| == 1;
    assert sent[0].verb == Post && sent[0].body == Json(data) && sent[0].headers[TokenHeader] == token;

    var removed := store.DeleteDestinations(token);
    assert removed == Ok(DestinationsDeleted);
    var again := store.DeleteDestinations(token);
    assert again == HttpError(404, AccountNotFound);
  }
}
