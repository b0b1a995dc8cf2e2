/** The two tables the handlers work on, the request bodies they accept, and
    the queries they run against the tables. */
module Records {
  import opened Http

  /** A row of the accounts table. `id` is the integer primary key the store
      assigns; `appSecretToken` is the token issued at registration. */
  datatype Account = Account(
    id: nat,
    email: string,
    accountId: string,
    accountName: string,
    appSecretToken: string,
    website: Option<string>)

  /** A row of the destinations table. `owner` is the account_id claim of
      the token that registered it (the handlers key destinations by it). */
  datatype Destination = Destination(
    url: string,
    httpMethod: string,
    headers: map<string, string>,
    owner: string)

  /** The body accepted by the account routes; `website` defaults to None. */
  datatype AccountForm = AccountForm(
    email: string,
    accountId: string,
    accountName: string,
    website: Option<string>)

  /** The body accepted when registering a destination. */
  datatype DestinationForm = DestinationForm(
    url: string,
    httpMethod: string,
    headers: map<string, string>)

  /** Some account carries this account_id. */
  predicate HasAccount(accounts: seq<Account>, accountId: string)
  {
    exists i | 0 <= i < |accounts| :: accounts[i].accountId == accountId
  }

  /** The first account, in table order, carrying this account_id
      (`query(Account).filter(account_id == ...).first()`). */
  function FindAccount(accounts: seq<Account>, accountId: string): (r: Option<nat>)
    ensures r.Some? <==> HasAccount(accounts, accountId)
    ensures r.Some? ==> r.value < |accounts| && accounts[r.value].accountId == accountId
    ensures r.Some? ==> forall j :: 0 <= j < r.value ==> accounts[j].accountId != accountId
  {
    if accounts == [] then None
    else if accounts[0].accountId == accountId then Some(0)
    else
      match FindAccount(accounts[1..], accountId)
      case None =>
        assert forall j :: 1 <= j < |accounts| ==> accounts[j] == accounts[1..][j - 1];
        None
      case Some(k) => Some(k + 1)
  }

  /** Some account already uses this form's email or its account_id
      (the `or_` filter of registration). */
  predicate Clashes(accounts: seq<Account>, form: AccountForm): (taken: bool)
    ensures HasAccount(accounts, form.accountId) ==> taken
    ensures !taken ==> forall i :: 0 <= i < |accounts| ==>
      accounts[i].email != form.email && accounts[i].accountId != form.accountId
    ensures (!HasAccount(accounts, form.accountId)
      && forall i :: 0 <= i < |accounts| ==> accounts[i].email != form.email) ==> !taken
  {
    exists i | 0 <= i < |accounts| ::
      accounts[i].email == form.email || accounts[i].accountId == form.accountId
  }

  /** The destinations registered under `owner`, in table order
      (`query(Destination).filter(account_id == owner).all()`). */
  function OwnedBy(ds: seq<Destination>, owner: string): (r: seq<Destination>)
    ensures |r| <= |ds|
  {
    if ds == [] then []
    else
      var last := ds[|ds| - 1];
      OwnedBy(ds[..|ds| - 1], owner) + (if last.owner == owner then [last] else [])
  }

  /** The destinations left once every row of `owner` is deleted, in table order. */
  function NotOwnedBy(ds: seq<Destination>, owner: string): (r: seq<Destination>)
    ensures |r| <= |ds|
  {
    if ds == [] then []
    else
      var last := ds[|ds| - 1];
      NotOwnedBy(ds[..|ds| - 1], owner) + (if last.owner != owner then [last] else [])
  }

  /** An owner's list holds exactly the table's rows of that owner. */
  lemma {:induction false} OwnedByMembers(ds: seq<Destination>, owner: string)
    ensures forall d :: d in OwnedBy(ds, owner) <==> d in ds && d.owner == owner
  {
    if ds != [] {
      var init := ds[..|ds| - 1];
      OwnedByMembers(init, owner);
      assert ds == init + [ds[|ds| - 1]];
    }
  }

  /** After deleting an owner's rows, exactly the other owners' rows remain. */
  lemma {:induction false} NotOwnedByMembers(ds: seq<Destination>, owner: string)
    ensures forall d :: d in NotOwnedBy(ds, owner) <==> d in ds && d.owner != owner
  {
    if ds != [] {
      var init := ds[..|ds| - 1];
      NotOwnedByMembers(init, owner);
      assert ds == init + [ds[|ds| - 1]];
    }
  }

  /** Every row goes to exactly one side: an owner's rows and the rest
      together are the table, counting repetitions. */
  lemma {:induction false} OwnedSplit(ds: seq<Destination>, owner: string)
    ensures multiset(OwnedBy(ds, owner)) + multiset(NotOwnedBy(ds, owner)) == multiset(ds)
  {
    if ds != [] {
      var init := ds[..|ds| - 1];
      OwnedSplit(init, owner);
      assert ds == init + [ds[|ds| - 1]];
    }
  }

  /** Deleting one owner's rows leaves every other owner's list, order
      included, exactly as it was. */
  lemma {:induction false} OtherOwnersUntouched(ds: seq<Destination>, owner: string, other: string)
    requires other != owner
    ensures OwnedBy(NotOwnedBy(ds, owner), other) == OwnedBy(ds, other)
  {
    if ds != [] {
      var init, last := ds[..|ds| - 1], ds[|ds| - 1];
      OtherOwnersUntouched(init, owner, other);
      assert OwnedBy(ds, other) == OwnedBy(init, other) + (if last.owner == other then [last] else []);
      if last.owner != owner {
        assert NotOwnedBy(ds, owner) == NotOwnedBy(init, owner) + [last];
        OwnedByAppend(NotOwnedBy(init, owner), last, other);
      } else {
        assert NotOwnedBy(ds, owner) == NotOwnedBy(init, owner);
      }
    }
  }

  /** Registering a row appends it to its owner's list and to no other. */
  lemma OwnedByAppend(ds: seq<Destination>, d: Destination, owner: string)
    ensures OwnedBy(ds + [d], owner) == OwnedBy(ds, owner) + (if d.owner == owner then [d] else [])
  {
    assert (ds + [d])[..|ds|] == ds;
  }

  /** No two rows of the table are equal. */
  predicate Distinct(ds: seq<Destination>)
  {
    forall i, j :: 0 <= i < j < |ds| ==> ds[i] != ds[j]
  }

  /** Once an owner's rows are deleted, that owner has none left. */
  lemma {:induction false} NoneLeft(ds: seq<Destination>, owner: string)
    ensures OwnedBy(NotOwnedBy(ds, owner), owner) == []
  {
    if ds != [] {
      var init, last := ds[..|ds| - 1], ds[|ds| - 1];
      NoneLeft(init, owner);
      if last.owner != owner {
        assert NotOwnedBy(ds, owner) == NotOwnedBy(init, owner) + [last];
        OwnedByAppend(NotOwnedBy(init, owner), last, owner);
      } else {
        assert NotOwnedBy(ds, owner) == NotOwnedBy(init, owner);
      }
    }
  }

  /** Deleting rows never makes two remaining rows equal. */
  lemma {:induction false} NotOwnedByDistinct(ds: seq<Destination>, owner: string)
    requires Distinct(ds)
    ensures Distinct(NotOwnedBy(ds, owner))
  {
    if ds != [] {
      var init, last := ds[..|ds| - 1], ds[|ds| - 1];
      assert Distinct(init);
      NotOwnedByDistinct(init, owner);
      NotOwnedByMembers(init, owner);
      assert last !in init;
    }
  }

  /** Scanning one more row extends the kept rows by that row exactly when
      its owner differs. */
  lemma NotOwnedByStep(ds: seq<Destination>, j: nat, owner: string)
    requires j < |ds|
    ensures NotOwnedBy(ds[..j + 1], owner)
         == NotOwnedBy(ds[..j], owner) + (if ds[j].owner != owner then [ds[j]] else [])
  {
    assert ds[..j + 1][..j] == ds[..j];
  }

  /** One step of deleting an owner's rows in place. The table `cur` holds
      the kept rows among the first j scanned, then the unscanned rest, and
      i is where the rest starts: row i is the j-th original row, and it is
      dropped when `owner` holds it and stepped over otherwise. */
  lemma ScanStep(ds: seq<Destination>, j: nat, owner: string, cur: seq<Destination>, i: nat)
    requires j < |ds|
    requires cur == NotOwnedBy(ds[..j], owner) + ds[j..]
    requires i == |NotOwnedBy(ds[..j], owner)|
    ensures i < |cur| && cur[i] == ds[j]
    ensures ds[j].owner == owner ==>
      cur[..i] + cur[i + 1..] == NotOwnedBy(ds[..j + 1], owner) + ds[j + 1..]
      && i == |NotOwnedBy(ds[..j + 1], owner)|
    ensures ds[j].owner != owner ==>
      cur == NotOwnedBy(ds[..j + 1], owner) + ds[j + 1..]
      && i + 1 == |NotOwnedBy(ds[..j + 1], owner)|
  {
    var done := NotOwnedBy(ds[..j], owner);
    NotOwnedByStep(ds, j, owner);
    assert ds[j..] == [ds[j]] + ds[j + 1..];
    assert cur[..i] == done;
    assert cur[i + 1..] == ds[j + 1..];
  }
}
