# zoho_hub: connection protocol and attribute schema, in Dafny

This project models two pieces of the `zoho_hub` Ruby client for the Zoho CRM REST API,
and proves properties of the model.

1. **`ZohoHub::Connection`** (`connection.dfy`, module `Connection`). It covers:
   - inferring the API host from the configured accounts domain;
   - the access token, which is unset, a fixed string or a callable;
   - the `Authorization: Zoho-oauthtoken <token>` header;
   - the memoized transport adapter and its one-time initialization hook;
   - `refresh_token!`, which is skipped when the refresh mutex was already held on entry
     and never overwrites a callable token;
   - `with_refresh`: send once, maybe refresh, retry exactly once, or raise `ZohoAPIError`;
   - the verb wrappers, which raise `InternalError` on the statuses 500, 502, 503 and 504.

   The protocol is stated twice:
   - as pure transitions over a `ConnState` value (`AdapterStep`, `SendStep`,
     `RefreshStep`, `WithRefreshStep`, `RequestStep`), which the lemmas are about;
   - as the class `Connection.Connection`, whose fields are the Ruby instance variables.
     Each method's postcondition equates the new `State()` with the matching transition
     applied to `old(State())`.

   The state also records what leaves the object:
   - the refresh tokens sent for exchange;
   - the parameters handed to `on_refresh_cb`;
   - every request sent, with the `Authorization` header it carried;
   - how many times `on_initialize_connection` ran.

2. **`ZohoHub::WithAttributes`** (`with_attributes.dfy`, `naming.dfy`, `assoc.dfy`). It covers:
   - the class-level attribute list;
   - the translation table;
   - the local→remote key rule (an explicit entry, else split on `_`, `capitalize` each
     field, rejoin);
   - the inverted table and the remote→local lookup;
   - `assign_attributes`.

   Ruby hashes are modelled as ordered association lists with distinct keys (`Assoc.Hash`).
   `Hash[pairs]` and `to_h` insert left to right, so of two equal keys the later value wins
   and the first position stays. Ruby's generated accessors are replaced by a map from
   attribute name to value: an instance "responds to `k=`" exactly when `k` is a declared
   attribute of its class.

Inputs rather than computations:
- the HTTP exchange (`first`/`second` responses);
- what `Response` says of a body (`invalidToken`, `authenticationFailure`, `msg` in `Body`);
- the result of `ZohoHub::Auth.refresh_token` (`RefreshParams`);
- what a callable token returns (`ProcOracle`: a callable and the number of requests
  already sent determine the string it returns);
- the process-wide configuration (`Configuration`);
- whether another thread holds the refresh mutex (the field `locked`).

Behaviours of the code worth noting:
- The code refreshes and retries on `authentication_failure?` as well as on
  `invalid_token?` when a refresh token is set (`lib/zoho_hub/connection.rb:94`). It raises
  `ZohoAPIError` only when no refresh token is set (`:99-100`).
- The remote→local lookup passes an unknown key through unchanged. So
  `zoho_key_to_attr(attr_to_zoho_key(:my_string))` is `:My_String`, not `:my_string`.
  What does hold is stated in `WithAttributes.RoundTripDefault`: for a key in default form
  that the table does not mention, the local→remote rule undoes the remote→local lookup.
  For explicit entries, `WithAttributes.RoundTripExplicit` gives the round trip the other
  way.
- `@attribute_translation ||= {}` initializes lazily. Every reader sees `nil` and `{}`
  alike (`zoho_key_translation` uses `nil.to_a == []`), so the model starts with the
  empty table.

## Model

| member | source | states |
|---|---|---|
| `Connection.InferKnownDomain` | lib/zoho_hub/connection.rb:12-20 | each of the four known accounts domains maps to its own `zohoapis` host |
| `Connection.InferOtherDomain` | lib/zoho_hub/connection.rb:12-29 | any other configured value, `nil` and `''` included, gives `DEFAULT_DOMAIN` (`https://www.zohoapis.eu`) |
| `Connection.Connection.constructor` | lib/zoho_hub/connection.rb:36-44 | an explicit `api_domain` wins over the inferred one, an explicit `api_version` over the configured one; the mutex starts free; no adapter, callbacks or traffic yet; `expiresIn`, `apiDomain` and `apiVersion` are `const`, so no later method changes them |
| `Connection.AuthorizationCarriesToken` | lib/zoho_hub/connection.rb:116-118 | the header is `Zoho-oauthtoken ` followed by exactly the token, so it determines the token |
| `Connection.AuthorizationExample` | lib/zoho_hub/connection.rb:57-59 | a static token is returned as stored, a callable one is called; a callable returning `'123'` gives `Zoho-oauthtoken 123` |
| `Connection.Connection.AccessToken` | lib/zoho_hub/connection.rb:57-63 | `access_token` is `nil` exactly when `access_token?` is false; a fixed token is returned as stored, a callable one yields what the callable returns at this point of the traffic |
| `Connection.SentHeader` | lib/zoho_hub/connection.rb:106-109 | each request is appended to the traffic with its call; it carries `Zoho-oauthtoken <current token>` when a token is set, and otherwise the adapter's old header (none on a new adapter) |
| `Connection.AdapterMemoized` | lib/zoho_hub/connection.rb:120-131 | the adapter is built on first use only; the initialization hook runs once, at that build, if it is set |
| `Connection.ValidPreserved` | lib/zoho_hub/connection.rb:120-131 | every transition keeps "the hook ran at most once and only after the build, and no request is sent before the build" |
| `Connection.RefreshSkippedWhenLocked` | lib/zoho_hub/connection.rb:75-79 | with the mutex already held on entry, `refresh_token!` changes nothing: no exchange, no callback, same token |
| `Connection.RefreshWhenFree` | lib/zoho_hub/connection.rb:80-82 | with the mutex free: one exchange of the current refresh token, the callback (if set) receives its result, a static or unset token becomes `params[:access_token]`, a callable token stays, and nothing else changes |
| `Connection.RefreshExamples` | lib/zoho_hub/connection.rb:80-82 | `'foo'` becomes `'123'`, while a callable returning `'bar'` still gives `'bar'` |
| `Connection.WithRefreshRetriesOnce` | lib/zoho_hub/connection.rb:88-104 | on `invalid_token?` or `authentication_failure?` with a refresh token set: exactly two requests of the same call, one exchange unless the mutex was held, the second response returned, and the retry carries the post-refresh token |
| `Connection.WithRefreshNoRetry` | lib/zoho_hub/connection.rb:94-103 | otherwise: exactly one request, no exchange, no callback, same token; `ZohoAPIError` with the message exactly when the failure is `authentication_failure?`, else the first response (an `invalid_token?` without a refresh token included) |
| `Connection.WithRefreshBounded` | lib/zoho_hub/connection.rb:88-104 | any call sends one or two requests and does at most one exchange and one callback |
| `Connection.RequestServerErrors` | lib/zoho_hub/connection.rb:50-53 | a verb raises `InternalError` with the body exactly when the response `with_refresh` returned has a server error status; otherwise it returns that body and passes `with_refresh`'s errors through |
| `Connection.ServerErrorStatuses` | lib/zoho_hub/connection.rb:34 | the server error statuses are exactly 500, 502, 503 and 504 |
| `Connection.Connection.SetOnRefresh` | lib/zoho_hub/connection.rb:27 | setting `on_refresh_cb` changes only whether a callback is set |
| `Connection.Connection.SetOnInitialize` | lib/zoho_hub/connection.rb:27 | setting `on_initialize_connection` changes only whether a hook is set |
| `Connection.Connection.Adapter` | lib/zoho_hub/connection.rb:120-131 | the new state is `AdapterStep` of the old one, and the adapter invariant holds |
| `Connection.Connection.SendAuthorized` | lib/zoho_hub/connection.rb:106-109 | the new state is `SendStep` of the old one, and the server's response is returned |
| `Connection.Connection.RefreshToken` | lib/zoho_hub/connection.rb:75-84 | the new state is `RefreshStep` of the old one |
| `Connection.Connection.WithRefresh` | lib/zoho_hub/connection.rb:88-104 | the new state and the result are `WithRefreshStep` of the old state |
| `Connection.Connection.Request` | lib/zoho_hub/connection.rb:46-55 | the new state and the result are `RequestStep` of the old state |
| `WithAttributes.RecordClass.constructor` | lib/zoho_hub/with_attributes.rb:28-44 | a class starts with no attributes and an empty table |
| `WithAttributes.RecordClass.Attributes` | lib/zoho_hub/with_attributes.rb:28-36 | appends the names in call order (none: no change), keeps the table, and returns the accumulated list |
| `WithAttributes.RecordClass.AttributeTranslation` | lib/zoho_hub/with_attributes.rb:38-44 | a given table replaces the old one entirely; without one the table stays; the current table is returned |
| `WithAttributes.OverrideWins` | lib/zoho_hub/with_attributes.rb:46-47 | a key with an explicit table entry translates to that entry, whatever the default rule says |
| `WithAttributes.DefaultWithoutEntry` | lib/zoho_hub/with_attributes.rb:46-48 | a key with no entry translates by the default rule |
| `WithAttributes.RemoteKeyShape` | lib/zoho_hub/with_attributes.rb:46-48 | every remote key produced is either a table value or a fixed point of the default rule |
| `Naming.DefaultKeyPointwise` | lib/zoho_hub/with_attributes.rb:48 | the default rule, character by character: trailing `_` dropped; `_` kept in place; a character at the start or after `_` upcased; every other character downcased |
| `Naming.DefaultKeyIdempotent` | lib/zoho_hub/with_attributes.rb:48 | applying the default rule to its own output gives the same key |
| `Naming.SplitJoin` | lib/zoho_hub/with_attributes.rb:48 | `split('_')` gives back the fields that `join('_')` joined, for every field list a split can produce |
| `Naming.SplitEdgeCases` | lib/zoho_hub/with_attributes.rb:48 | `''.split('_')` is `[]` (so `''` maps to `''`), and a trailing `_` does not change the split |
| `Naming.RawSplitAppendSep` | lib/zoho_hub/with_attributes.rb:48 | a trailing `_` adds one empty field, which Ruby's `split` then drops |
| `Naming.DefaultKeyTwoWords` | lib/zoho_hub/with_attributes.rb:48 | two words joined by `_` each get capitalized on their own |
| `Naming.CapitalizeIdempotent` | lib/zoho_hub/with_attributes.rb:48 | `capitalize` of a capitalized word changes nothing |
| `Naming.CapitalizeExamples` | lib/zoho_hub/with_attributes.rb:48 | `capitalize` upcases the first character and downcases the rest (`iD` → `Id`) |
| `Naming.ExampleMyString` | spec/zoho_hub/base_record_spec.rb:78-83 | `my_string` maps to `My_String` |
| `Assoc.InvertLast` | lib/zoho_hub/with_attributes.rb:51-53 | in the swapped table a value maps to the key of the last pair holding it (`to_h` keeps the later duplicate) |
| `Assoc.InvertMissing` | lib/zoho_hub/with_attributes.rb:51-53 | a value no pair holds is absent from the swapped table |
| `Assoc.LookupFromPairs` | lib/zoho_hub/with_attributes.rb:69 | after `Hash[pairs]` each key holds the value of its last pair |
| `WithAttributes.UnknownKeyPassesThrough` | lib/zoho_hub/with_attributes.rb:79-85 | a remote key that no entry produces maps to itself |
| `WithAttributes.KnownKeyTranslatesBack` | lib/zoho_hub/with_attributes.rb:79-84 | a remote key that entries produce maps back to the local name of the last such entry |
| `WithAttributes.RoundTripExplicit` | lib/zoho_hub/with_attributes.rb:46-53 | for an attribute with an entry in an injective table, `zoho_key_to_attr(attr_to_zoho_key(a)) == a` |
| `WithAttributes.RoundTripDefault` | lib/zoho_hub/with_attributes.rb:79-85 | for a remote key in default form that the table does not mention, `attr_to_zoho_key(zoho_key_to_attr(k)) == k` |
| `WithAttributes.AssignNotHash` | lib/zoho_hub/with_attributes.rb:63-66 | a non-Hash argument raises `ArgumentError` with message "When assigning attributes, you must pass a hash as an argument" and changes nothing |
| `WithAttributes.AssignEmpty` | lib/zoho_hub/with_attributes.rb:67 | an empty hash changes nothing and raises nothing |
| `WithAttributes.AssignSucceedsIff` | lib/zoho_hub/with_attributes.rb:87-100 | `assign_attributes` raises nothing exactly when the text of every key is a declared attribute |
| `WithAttributes.AssignStores` | lib/zoho_hub/with_attributes.rb:69-96 | after success, each named attribute holds, unchanged, the value of the last entry whose key has its name |
| `WithAttributes.AssignLeavesOthers` | lib/zoho_hub/with_attributes.rb:87-96 | after success, attributes the hash does not name keep their values |
| `WithAttributes.AssignFailure` | lib/zoho_hub/with_attributes.rb:87-100 | a failure raises `ArgumentError` "Unknown attribute <key>" for an undeclared key, and the state is what assigning the (all declared) keys before it gives |
| `WithAttributes.AssignPairsSucceedsIff` | lib/zoho_hub/with_attributes.rb:87-100 | on string-keyed pairs: no error exactly when every key is declared |
| `WithAttributes.AssignPairsFailure` | lib/zoho_hub/with_attributes.rb:87-100 | the error names the first undeclared key, and the earlier keys are assigned |
| `WithAttributes.AssignPairsErrorKey` | lib/zoho_hub/with_attributes.rb:87-100 | a failure stops at an undeclared key that comes after declared ones only |
| `WithAttributes.AssignPairsStores` | lib/zoho_hub/with_attributes.rb:87-96 | success stores each value unchanged under its key and touches no other attribute |
| `WithAttributes.AssignKeepsEmptyAndFalse` | spec/zoho_hub/base_record_spec.rb:121-132 | with the test schema, `''` and `false` are stored as they are |
| `WithAttributes.Record.AssignAttributes` | lib/zoho_hub/with_attributes.rb:63-100 | the loop's new values and error are `AssignOutcome` of the old values, the class's declared attributes and the argument |

## Left out

- The Faraday transport is not modelled: the JSON middleware, `Faraday.default_adapter`,
  the debug logger middleware and `base_url` (`Addressable::URI.join`) are foreign library
  code. The adapter is modelled as "built or not", its `Authorization` header, and a hook
  counter.
- `log`, `Rainbow` and `puts` are output only.
- Real mutex semantics and thread interleavings are not modelled. Only the rule "skip if the
  mutex was held by another thread at entry" is: the refresh waits for that thread and
  then does nothing. Ruby's `Mutex` is not reentrant, so a refresh re-entered on the same
  thread would raise `ThreadError` (recursive locking) at `lib/zoho_hub/connection.rb:77`
  instead of skipping. An example is a request made from `on_refresh_cb` that refreshes
  again. This is not modelled: `locked` means held by another thread.
- `ZohoHub::Auth.refresh_token` is not part of this model. Its result is an input, so an
  exchange that raises is not modelled.
- `ZohoHub::Response` is not part of this model. Its classification of a body is an input.
- A callable token that returns `nil` is not modelled: `ProcOracle` returns a string.
- `expires_in` and `api_version` are stored but play no part in the protocol. The model
  leaves out `debug` entirely: `initialize` never assigns `@debug`, and `log` and `adapter`
  read `ZohoHub.configuration.debug?` instead.
- The constructor's default `expires_in: 3600` (`lib/zoho_hub/connection.rb:36`) has no
  counterpart: `Connection.Connection.constructor` takes `expiresIn` as an explicit
  argument.
- A transport failure is not modelled: every request in the model gets a response. In the
  code, `adapter.send` (`lib/zoho_hub/connection.rb:50`, run through `yield` at `:108`) can
  raise on a connection failure, a timeout, or a parse error from the JSON middleware at
  `:124`. Such an exception leaves `with_refresh` and the verb unchanged. When the retry
  at `:98` is what raises, `refresh_token!` at `:96` has already done the exchange, called
  `on_refresh_cb` and written `@access_token`. `Connection.WithRefreshStep` always returns
  `Ok(second)` on a retry.
- The setters that `attr_accessor` generates (`lib/zoho_hub/connection.rb:23`) are not
  modelled: `debug=`, `expires_in=`, `api_domain=`, `api_version=` and `refresh_token=`.
  So in the model `expiresIn`, `apiDomain` and `apiVersion` are fixed at construction,
  and no method changes them. The re-reading of configuration is not modelled either.
  The configuration is a constructor input.
- Callbacks and callable tokens are assumed to return normally, so an exception from
  user code is not modelled:
  - An `on_initialize_connection` that raises (`lib/zoho_hub/connection.rb:129`) would
    abort `Faraday.new`. `@adapter` would stay unset and the hook would run again on the
    next use. `AdapterStep` always builds the adapter.
  - An `on_refresh_cb` that raises (`:81`) would skip the token write at `:82`.
    `RefreshStep` always writes the token.
  - A callable access token that raises (`:58`) is not modelled.
- Attribute names are assumed to be valid Ruby identifiers. `attr_accessor` raises
  `NameError` on a name such as `:"my-string"` before the append
  (`lib/zoho_hub/with_attributes.rb:33`). `WithAttributes.RecordClass.Attributes` appends
  any name.
- The test-only reset of `@adapter` through `instance_variable_set` is not modelled.
- `capitalize`, `upcase` and `downcase` map ASCII letters only. Ruby's Unicode case mapping
  is not modelled.
- Symbols and strings are both modelled by their text. A table whose keys are strings
  (never found by Ruby's `to_sym` lookups) is not modelled. `HashKey` keeps symbol and
  string keys apart only for `assign_attributes`, where `to_s` merges them.
- `respond_to?(:"k=")` is modelled as "`k` is declared on the class". Setters
  defined some other way, and accessors inherited from a superclass whose `@attributes`
  list is separate, are not modelled.
- The instance `attributes` (`lib/zoho_hub/with_attributes.rb:57-59`) is
  `WithAttributes.Record.Attributes`, a plain delegation with no contract of its own.
- The record engine (`find`, `find_all`, `where`, `delete_all`, batching into windows of
  100 ids, blueprints, notes) lives in `base_record.rb`, which is not part of this model.
- `lib/zoho_hub/modules/note.rb` only declares fields. The test schema in
  `WithAttributes.AssignKeepsEmptyAndFalse` shows a schema of that kind.
- `Connection.WithRefreshRetriesOnce`: the header of the retried request is stated only
  when a token is set after the refresh. Otherwise `Connection.SentHeader` gives it as the
  adapter's previous header.
