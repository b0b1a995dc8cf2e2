# Account registry and payload relay — a Dafny model

This project models the route handlers of a small FastAPI service (`views.py`).
Accounts register with an email and an `account_id` and receive a signed token.
With that token they register outbound HTTP destinations (url, method, headers).
Any payload posted to the incoming-data route with the token is then forwarded to every destination of the account.

The two database tables are fields of a `Store` class (`views.dfy`): a sequence of `Account` rows, a sequence of `Destination` rows and the next primary key.
Every handler is a method of that class. Each one runs its guards in the source's order and then changes the tables. Adding or updating a row is one assignment; deleting an account's destinations is a loop that removes matching rows one at a time.
Each method returns a `Response`, which is one of three things:
- `Ok` with the value the handler returns;
- `HttpError` with the status and detail of the `HTTPException` it raises;
- `DecodeError`, the exception that escapes when `jwt.decode` rejects a token.

`Store.Valid()` is the invariant that every handler keeps:
- account_ids are unique;
- primary keys are distinct;
- each account holds the token issued for its account_id;
- no destination outlives its account;
- no two destinations are equal, so no owner holds the same (url, method, headers) twice.

The incoming-data route checks its guards, then runs a send loop (`Views.SendAll`).
That loop is proved against `Relay.Dispatch`, a function that walks the destinations in order and stops at the first failure.
Lemmas about `Dispatch` state the fail-fast behaviour, the success condition and the exactly-once, in-order sending.

Modules: `Http` (responses, requests), `Jwt` (token codec), `Records` (rows, forms, table queries), `Relay` (one send, the dispatch walk), `Views` (the store and its handlers).

The token codec stands for HS256 JSON Web Tokens (RFC 7519). A token is a fixed header followed by the `account_id` claim. `Decode` accepts exactly such strings, and `Decode(Encode(a)) == Some(a)`.
The transport (`requests.get/post/put`) is a parameter `send: Request -> int` that gives the status code of each request. `ReceiveData` returns the requests it handed to `send`, in order. Because `send` is a function, equal requests always get the same status. Two destinations that differ only in a stored `CL-XTOKEN` header build equal requests, since the account's token overwrites that header.

Destinations are keyed by the `account_id` string of the token that registered them, because that is what the handlers store and filter on.
The incoming-data route reads `account.destinations` through the ORM relationship. The model's choice is to read that relationship as the rows whose owner is the account's `account_id`, the same filter the other handlers use; "## Left out" says what this departs from.

The model follows the code, including where it departs from what a registry of this kind is usually expected to do:
- listing and deleting an account's destinations fail with 404 when there are none, rather than returning an empty list or a count of 0;
- so deleting destinations twice in a row fails the second time;
- deleting an account twice fails the second time with 404;
- destination equality is exact equality of url, method string and header map.

## Model

| member | source | states |
|---|---|---|
| Jwt.Encode | views.py:44-46 | an issued token is non-empty and decodes back to the account_id it was issued for |
| Jwt.Decode | views.py:63 | a token decodes only when it is the token issued for its claim: `Decode(t) == Some(a)` means `t` is `Header + a`, the result of `Encode(a)`; every handler that reads a token (views.py:78, :109, :129, :149, :173, :194) relies on this |
| Views.NewAccount | views.py:45-48 | the new row carries the form's email, account_id, account_name and website, the given id, and a token that decodes to its own account_id |
| Records.FindAccount | views.py:82-83 | returns the index of the first account with the account_id, or None exactly when no account has it |
| Records.OwnedByMembers | views.py:151 | an owner's destination list holds exactly the table's rows whose owner matches |
| Records.NotOwnedByMembers | views.py:116-118 | after an owner's rows are deleted, exactly the rows of other owners remain |
| Records.OwnedSplit | views.py:179-181 | an owner's rows and the remaining rows together are the whole table, counting repetitions |
| Records.OtherOwnersUntouched | views.py:179-181 | deleting one owner's rows leaves every other owner's list, order included, unchanged |
| Records.OwnedByAppend | views.py:137-138 | adding a row appends it to its owner's list and to no other list |
| Records.NoneLeft | views.py:116-118 | once an owner's rows are deleted, that owner has no rows left |
| Records.NotOwnedByDistinct | views.py:180-181 | deleting rows never makes two remaining rows equal |
| Records.Clashes | views.py:41-43 | a clash happens exactly when some row has the form's email or its account_id: an account_id already in the table clashes, a free account_id with a free email does not, and when there is no clash no row has either |
| Records.OwnedBy | views.py:151 | the query for an owner's destinations returns no more rows than the table holds; its members are stated by Records.OwnedByMembers |
| Records.NotOwnedBy | views.py:116-118 | the table left by deleting an owner's rows is no longer than before; its members are stated by Records.NotOwnedByMembers |
| Views.TokenOf | views.py:191 | a payload with an app_secret_token field gives that field's value, and a payload without it gives the empty token; so a non-empty token always comes from the field |
| Views.SameDetails | views.py:87-89 | the form matches the stored email, name and website exactly when applying them would leave the row unchanged |
| Relay.VerbOf | views.py:207-213 | "GET", "POST" and "PUT" select their verb, matched exactly; any other string selects nothing |
| Relay.WithToken | views.py:204-205 | the copied headers keep every stored header except CL-XTOKEN, which is set to the caller's token even when already present |
| Relay.Outgoing | views.py:203-214 | a request exists exactly for a known method; it goes to the destination's url with the token-overwritten headers; the payload is sent as query parameters for GET and as a JSON body otherwise |
| Relay.Dispatch | views.py:203-219 | a dispatch never sends more requests than there are destinations, and it ends in success or an HTTP error |
| Relay.DispatchSucceedsIff | views.py:216-219 | a dispatch succeeds exactly when every destination has a known method and answers 200 |
| Relay.DispatchAllAccepted | views.py:203-219 | when every destination accepts, one request is sent per destination and the route reports success; with no destinations it succeeds having sent nothing |
| Relay.DispatchStopsAtFirstFailure | views.py:213-217 | at the first failing destination k, exactly k requests precede it, k gets one more only if its method is known, and the route fails with 400 (unknown method) or 500 (non-200 status) |
| Relay.DispatchSentInOrder | views.py:203-212 | the j-th request sent is the request for the j-th destination, so each destination reached is sent to exactly once, in table order |
| Views.Resolve | views.py:74-79 | an empty token fails with the handler's own status and detail; an undecodable token gives DecodeError; a non-empty token that decodes gives its decoded claim, and an issued token resolves to its account_id |
| Views.Revised | views.py:92-98 | an updated account carries the form's email, name and website and keeps its id, account_id and token |
| Views.CreateAccountKeepsInvariant | views.py:41-51 | registering a form that clashes with no account keeps the store invariant |
| Views.UpdateAccountKeepsInvariant | views.py:93-99 | an update keeps the store invariant |
| Views.DeleteAccountKeepsInvariant | views.py:111-121 | deleting an account with its destinations keeps the store invariant and leaves no account with that account_id |
| Views.CreateDestinationKeepsInvariant | views.py:131-139 | adding a new destination for an existing account keeps the store invariant |
| Views.DeleteDestinationsKeepsInvariant | views.py:175-183 | deleting an owner's destinations keeps the store invariant |
| Views.Store.CreateAccount | views.py:38-56 | fails with 400 and changes nothing when the email or the account_id is taken; otherwise appends exactly one account with the form's fields and the token for its account_id, and returns that token |
| Views.Store.GetAccount | views.py:58-68 | applies the token guards, then succeeds exactly when an account has the claimed account_id and returns that account, which holds the token for it; otherwise 404 |
| Views.Store.UpdateAccount | views.py:72-101 | applies the token guards, then 404 for an unknown account, then 400 when email, name and website all match; otherwise only that account changes, taking the form's three fields |
| Views.Store.DeleteOwnedBy | views.py:116-118 | the loop deletes exactly the owner's rows and keeps the others in order |
| Views.Store.DeleteAccount | views.py:104-122 | applies the token guards, then 404 for an unknown account; otherwise removes that account and all its destinations and nothing else, leaving no account and no destination for that account_id |
| Views.Store.CreateDestination | views.py:124-142 | applies the token guards, then 404 for an unknown account, then 404 when an equal destination exists; otherwise appends exactly that destination under the token's account_id |
| Views.Store.GetDestinations | views.py:144-156 | applies the token guards, then returns exactly the owner's destinations in table order, or 404 when there are none; a non-empty answer always belongs to an existing account |
| Views.Store.DeleteDestinations | views.py:168-185 | 402 for an empty token; 404 when the owner has no destinations; otherwise removes exactly the owner's destinations, so a second call fails |
| Views.Store.ReceiveData | views.py:187-219 | checks guards in order before sending anything: 400 for an empty payload, 401 for a missing token, DecodeError for an undecodable one, 401 for an unknown account; otherwise the requests sent and the result are those of Dispatch over the account's destinations |
| Views.SendAll | views.py:203-219 | the send loop produces exactly the requests and the outcome of Dispatch |

## Left out

- FastAPI routing, the `get_db` session dependency, pydantic validation of the request bodies and `main.py` (server start-up, table creation) are framework glue. The request bodies appear only as the record types `AccountForm` and `DestinationForm`.
- SQLAlchemy sessions, commits, refreshes and transactions: additions and updates change the tables in one assignment, deletions through the in-place loop of Views.Store.DeleteOwnedBy, and nothing is rolled back. A commit that fails is not modelled. In particular, an update that gives an account another account's email is stopped only by the database's unique constraint, so the model lets it through, and email uniqueness is not part of the store invariant.
- The primary key the database assigns is modelled as a counter that starts at 1. Only its freshness matters.
- Header equality in the duplicate-destination query: the database compares JSON columns as serialised text, which depends on key order. The model compares header maps, which does not.
- JSON values: payload fields and header values are strings. A non-string `app_secret_token` field (for example `null`) is not modelled.
- HMAC-SHA256 signing and the hard-coded secret: a token is a fixed header plus the claim, so the model has no forged or tampered tokens. A signed token without an `account_id` claim matches no account, because None never equals a stored account_id. In every handler that is the unknown-account case, so the model's codec always carries the claim. The `KeyError` that `get_account` raises on such a token is not modelled.
- Views.Store.GetAccount: for an empty token the source returns (rather than raises) an exception object. The model reports it as the 404 error that object describes.
- `get_access_token` (views.py:158-166) is not modelled. It reads attributes of a plain dict and dereferences a possibly empty query result, so it has no coherent behaviour to state.
- Real HTTP via `requests`: network errors, timeouts and exceptions are not modelled. Only the status code the transport returns for each request matters. The source sends sequentially, with no parallel delivery and no retries, and the model does the same. A transport whose answer for the same request changes between calls is not modelled.
- Views.Store.ReceiveData: `account.destinations` (views.py:203) is the ORM relationship of models.py:17 and :29. That relationship joins `Destination.account_id`, declared as an integer foreign key to the account's integer primary key (models.py:26). The handlers store the string account_id claim in that column (views.py:137), so in the source the join does not match the stored string owners. The model instead reads the relationship as `OwnedBy(destinations, account_id)`, the rows whose owner is the account's account_id. So the model's relay reaches the destinations the account registered, where the source's join would match rows by integer key.
- Views.Store.DeleteOwnedBy walks the table and deletes each matching row in place. The source fetches the matching rows first and deletes them one by one; both leave the same table.
