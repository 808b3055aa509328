# Twitchbot base library: request executors, CRUD accessor and result envelope in Dafny

This project models the parts of the Twitchbot base library that make decisions:

- **`HttpResultModel<T>`** (module `Models`). This is the result envelope. It has four settable
  properties, `Result` starts true, and `PerformResult` overwrites all four.
- **The two request executors.** `ApiClient` (module `Api`) and `ClientBase` (module `Base`)
  apply headers to the default headers of their `HttpClient`. They choose the verb and the body
  by case analysis. They then turn the transport's answer into an envelope, or let an exception
  escape.
  - `ApiClient` routes the keys "OAuth" and "Bearer" to the Authorization slot.
  - `ClientBase` routes only "Authorization", and always with scheme "OAuth". Its `HttpClient` is
    static, so all instances share it.
- **`BaseDao`** (module `Dao`). This is the generic CRUD accessor over one entity set:
  `ReadModel`, `CreateModel`, `UpdateModel`, `DeleteModel` and `QueryModel`.

Shared pieces:

- `Headers` holds the default-header state as a class `HttpClient`. It is one store whose
  names compare ignoring case, held as the Accept list, the Authorization slot and the other
  headers added by name. `Add` with the name Accept or Authorization, in any case, writes the
  Accept list or the slot, and `Add` of a second Authorization value throws a
  `FormatException`. The module also holds the fold `ApplyAll` that describes a header loop,
  which stops at the first step that throws, with its lemmas.
- `Http` holds verbs, bodies, requests, responses and exceptions. A request carries the
  client's default headers at the moment it goes out. The module also holds `Conclude`, the
  envelope construction both executors share, and the method `Complete` that performs it.

Foreign code becomes parameters:

- The network is a function `send: Request -> Reply`, called once for the one request that is
  sent. Its `Reply` is a response (status, reason phrase, body) or a thrown exception.
- JSON decoding is `decode: string -> Decoded<T>`. JSON encoding (`ClientBase` only) is
  `encode: TIn -> string`.
- The AutoMapper configuration is three functions given to the `BaseDao` constructor:
  - `project`, the `ProjectTo` of an entity to its read model;
  - `fromCreate`, for `Map<TEntity>(createModel)`;
  - `applyUpdate`, for `Map(updateModel, entity)`.
- The EF Core entity set is a table `rows: map<int, F>` from id to entity fields, plus:
  - `order`, the order in which the store lists its rows;
  - `nextId`, the next value of the identity column.

  `Valid()` requires `order` to list every key exactly once and `nextId` to be above every key.

A `null` string content, envelope string, model, header dictionary or query predicate is
`None`. A `null` uri, header key or header value is not modelled: these are plain strings.

In these places the code does something other than its names suggest, and the model follows
the code:

- `SetHeaders` does not set Accept to `application/json`. Each call appends another
  `application/json` to the Accept list, which persists on the client and is never reset
  (`Api.AcceptGrowth`, `Base.AcceptGrowth`).
- Only the reserved keys use the Authorization property. An entry named Authorization in any
  other spelling goes through `Add`, which fills an empty slot and throws once it is set
  (`Api.SetHeadersCompletes`, `Base.SetHeadersCompletes`). Because headers persist, a
  dictionary holding such an entry makes every later call throw
  (`Api.RepeatedAuthorizationEntryFails`, `Base.RepeatedAuthorizationEntryFails`).
- `ApiClient` does not serialize a typed `content` object. Only a `StringContent` or a
  `FormUrlEncodedContent` is sent. Any other object is sent as a null body (`Api.Send`).
- Only `HttpRequestException` is caught. The localized fallback message can never be produced,
  because every exception that reaches the `catch` clause is an `HttpRequestException`. Every
  other exception escapes the call (`Http.Conclude`). It arrives as `JsonException`, the model's
  name for a decoder error, as the `FormatException` of `Add`, or as `OtherException`.
- `ClientBase` does not treat "OAuth" and "Bearer" as reserved. It uses the property only for
  the exact key "Authorization", with scheme "OAuth" (`Base.ReservedNamesOfApiClientAreLiteral`).
- An unrecognised verb does not end the call. `Execute` sends nothing and returns the fresh
  response. `PerformRequest` then goes on with that response's success status and empty body.
  The call ends in a successful envelope whose model is the decoding of `""`, or in the
  decoder's exception (`Api.Perform`, `Base.Perform`).

## Model

| member | source | states |
|---|---|---|
| `Models.HttpResultModel.constructor` | Models/BaseHttpResultModel.cs:12-24 | A new envelope has `Result` true and `ErrorMessage`, `BusinessMessage` and `Model` null. |
| `Models.HttpResultModel.PerformResult` | Models/BaseHttpResultModel.cs:33-39 | After the call, all four properties equal the arguments, whatever they held before. |
| `Headers.HttpClient.constructor` | Client/ApiClient.cs:32 | A new `HttpClient` has no Accept values, no Authorization and no headers added by name. |
| `Headers.HttpClient.AddAccept` | Client/ApiClient.cs:148-149 | `Accept.Add` appends one media type and changes nothing else. |
| `Headers.HttpClient.SetAuthorization` | Client/ApiClient.cs:159 | Setting the `Authorization` property replaces whatever the slot held, never throws, and changes nothing else. |
| `Headers.HttpClient.Add` | Client/ApiClient.cs:163 | `Add` with the name Accept, in any case, appends the value to Accept. With the name Authorization, in any case, it fills an empty slot with the value read as "scheme parameter", and throws, changing nothing, when the slot is set. Any other name is appended as a header. |
| `Headers.Added` | Client/ApiClient.cs:163 | `Add` throws exactly for the name Authorization, in any case, while the slot holds a value. |
| `Headers.ParseAuthorizationOfFormatted` | Client/ApiClient.cs:163 | A value written "scheme parameter" is read by `Add` as that scheme and parameter. |
| `Headers.ApplyAll` | Client/ApiClient.cs:153-165 | The loop only appends to Accept and to the headers added by name. A loop that throws does so at a step whose `Add` throws, and leaves the headers as the steps before it made them. |
| `Headers.ApplyAllAfterStop` | Client/ApiClient.cs:153-165 | Once a step throws, no later entry is applied. |
| `Headers.ApplyAllAccept` | Client/ApiClient.cs:153-165 | A loop that carries out every step appends exactly the values of the entries added under the name Accept, in order. |
| `Headers.ApplyAllLiterals` | Client/ApiClient.cs:153-165 | A loop that carries out every step adds exactly the entries added under other names, in enumeration order, after the existing ones. |
| `Headers.ApplyAllKeepsAuthorization` | Client/ApiClient.cs:153-165 | Without an entry that writes the Authorization slot, the loop cannot throw and the slot keeps its value. |
| `Headers.ApplyAllLastAuthorizationWins` | Client/ApiClient.cs:157-163 | In a loop that carries out every step, the last entry that writes the slot, by the property or by `Add`, decides its value. |
| `Headers.ApplyAllSlotEmpty` | Client/ApiClient.cs:153-165 | After a loop that carries out every step, the slot is empty exactly when it was empty before and no entry wrote it. |
| `Headers.ApplyAllCompletes` | Client/ApiClient.cs:153-165 | The loop carries out every step exactly when each `Add` of an Authorization value finds the slot empty: empty before the loop and written by no earlier entry. |
| `Http.Conclude` | Client/ApiClient.cs:74-96 | A `Result = true` envelope comes exactly from a success status with a decodable body, and its model is the decoded value. A transport `HttpRequestException` gives `Result = false` with that exception's message. A non-success status gives `Result = false` with the status exception's message. Any other transport exception escapes unchanged, and a body the decoder rejects escapes as that `JsonException`. Every returned envelope is well-formed: a failure has no model, and an error message means failure. `BusinessMessage` is never set. |
| `Http.CatchMessage` | Client/ApiClient.cs:95 | An exception the `catch` clause takes always gives its own message. The localized fallback text appears only for an exception that clause never takes. The same expression is at Client/BaseClient.cs:60. |
| `Http.ExecuteString` | Client/ApiClient.cs:100-121 | Something is sent exactly for the four known verbs, with that verb, the uri and the current default headers. GET and DELETE carry no body. POST and PUT carry the string content, or none if it is null. Client/BaseClient.cs:65-86 is the same method, and both clients use this one member. |
| `Http.Complete` | Client/BaseClient.cs:41-62 | Builds a fresh envelope exactly as `Conclude` describes, or lets the same exception escape. |
| `Api.Route` | Client/ApiClient.cs:157-164 | An entry uses the Authorization property exactly when its key is "OAuth" or "Bearer", compared exactly. It then sets the scheme to the key and the parameter to the value. Any other entry goes to `Add` unchanged. |
| `Api.SetHeadersSpec` | Client/ApiClient.cs:146-166 | Every call, even one that throws, appends `application/json` to Accept right after the values already there. It only appends to the headers added by name, so earlier ones stay in front. |
| `Api.ReservedKeysAreOrdinaryNames` | Client/ApiClient.cs:157-163 | "OAuth" and "Bearer" are neither Accept nor Authorization in any case, so a reserved entry only ever uses the property. |
| `Api.AcceptOfRoutes` | Client/ApiClient.cs:157-163 | The values the loop adds to Accept are exactly those of the entries named Accept, in any case. |
| `Api.LiteralsOfRoutes` | Client/ApiClient.cs:157-164 | The headers the loop adds by name are exactly the entries neither reserved nor named Accept or Authorization in any case. |
| `Api.AcceptGrowth` | Client/ApiClient.cs:148-165 | Each call appends one `application/json` to Accept, and a null dictionary changes nothing else. A call that carries out every entry also appends the values of the entries named Accept. |
| `Api.NamedEntriesAdded` | Client/ApiClient.cs:161-164 | A call that carries out every entry adds exactly the entries neither reserved nor named Accept or Authorization, in order. |
| `Api.LastSlotEntryWins` | Client/ApiClient.cs:153-165 | In a call that carries out every entry, the last entry that writes the slot decides it: a reserved key gives (that key, its value), the name Authorization gives its value read as "scheme parameter". |
| `Api.NoSlotEntryKeepsAuthorization` | Client/ApiClient.cs:153-165 | Without a reserved key or an entry named Authorization, the call cannot throw and Authorization keeps the value an earlier call left there. |
| `Api.SetHeadersCompletes` | Client/ApiClient.cs:153-165 | The call carries out every entry exactly when each entry named Authorization finds the slot empty: empty before the call and written by no earlier entry. |
| `Api.SetHeadersStops` | Client/ApiClient.cs:153-165 | A call that throws does so at an entry named Authorization, and leaves the headers as the call with only the entries before it would. |
| `Api.AuthorizationEntryFailsOnceSet` | Client/ApiClient.cs:163 | Once the slot is set, any entry named Authorization makes the call throw. |
| `Api.RepeatedAuthorizationEntryFails` | Client/ApiClient.cs:146-166 | After a call with an entry named Authorization succeeds, the same dictionary makes the next call throw, because the headers persist. |
| `Api.ExecuteForm` | Client/ApiClient.cs:123-144 | Something is sent exactly for the four known verbs, with that verb, the uri and the current default headers. GET and DELETE carry no body. POST and PUT carry the form content. |
| `Api.Send` | Client/ApiClient.cs:59-72 | Something is sent exactly for the four known verbs, with that verb, uri and the default headers. A body goes out exactly for POST or PUT with a `StringContent` or `FormUrlEncodedContent` argument, and it is that content. Any other object is dropped. |
| `Api.Perform` | Client/ApiClient.cs:57-98 | For a known verb, the outcome is `Conclude` of the transport's reply to the request sent with the given headers. For an unrecognised verb, it is the outcome for the fresh empty response: a successful envelope holding the decoding of `""`, or the decoder's exception. |
| `Api.ApiClient.constructor` | Client/ApiClient.cs:28-38 | Each executor owns a new `HttpClient` with no default headers. |
| `Api.ApiClient.SetHeaders` | Client/ApiClient.cs:146-166 | Changes the default headers exactly as `SetHeadersSpec` says: the Accept append, then one step per entry up to the first `Add` that throws, and reports whether every entry was carried out. |
| `Api.ApiClient.PerformRequest` | Client/ApiClient.cs:49-98 | Applies the headers whatever the outcome. If an `Add` throws, the call ends in that `FormatException`. Otherwise the request goes out with the new default headers and the outcome is `Perform`'s, in a fresh envelope. |
| `Base.Route` | Client/BaseClient.cs:99-106 | An entry uses the Authorization property exactly when its key is "Authorization", compared exactly. It then sets scheme "OAuth" with the value as parameter. Any other entry goes to `Add` unchanged. |
| `Base.SetHeadersSpec` | Client/BaseClient.cs:88-108 | Every call, even one that throws, appends `application/json` to the shared Accept list right after the values already there. It only appends to the headers added by name, so earlier ones stay in front. |
| `Base.AcceptOfRoutes` | Client/BaseClient.cs:99-106 | The values the loop adds to Accept are exactly those of the entries named Accept, in any case. |
| `Base.LiteralsOfRoutes` | Client/BaseClient.cs:99-106 | The headers the loop adds by name are exactly the entries named neither Accept nor Authorization in any case. |
| `Base.AcceptGrowth` | Client/BaseClient.cs:90-107 | Each call appends one `application/json` to the shared Accept list, and a null dictionary changes nothing else. A call that carries out every entry also appends the values of the entries named Accept. |
| `Base.NamedEntriesAdded` | Client/BaseClient.cs:103-106 | A call that carries out every entry adds exactly the entries named neither Accept nor Authorization, in order. |
| `Base.ReservedNamesOfApiClientAreLiteral` | Client/BaseClient.cs:99-106 | In a call that carries out every entry, an entry with key "OAuth" or "Bearer" is added by name, not routed to Authorization. |
| `Base.LastAuthorizationKeyWins` | Client/BaseClient.cs:95-107 | In a call that carries out every entry, the last entry named Authorization decides the slot: the exact key gives scheme "OAuth" with its value, another spelling gives its value read as "scheme parameter". |
| `Base.NoAuthorizationKeyKeepsAuthorization` | Client/BaseClient.cs:95-107 | Without an entry named Authorization in any case, the call cannot throw and the slot keeps its previous value. |
| `Base.SetHeadersCompletes` | Client/BaseClient.cs:95-107 | The call carries out every entry exactly when each entry spelled Authorization other than exactly "Authorization" finds the slot empty: empty before the call and written by no earlier entry. |
| `Base.SetHeadersStops` | Client/BaseClient.cs:95-107 | A call that throws does so at an entry spelled Authorization other than exactly, and leaves the headers as the call with only the entries before it would. |
| `Base.RepeatedAuthorizationEntryFails` | Client/BaseClient.cs:88-108 | After a call with an entry such as "authorization" succeeds, the same dictionary makes the next call, from any instance, throw. |
| `Base.Serialize` | Client/BaseClient.cs:35 | A null content gives no body. Otherwise the body is the JSON encoding of the content, as UTF-8 `application/json`. |
| `Base.Send` | Client/BaseClient.cs:35-39 | Something is sent exactly for the four known verbs, with the default headers. A body goes out exactly for POST or PUT with a non-null content. When it does, it is the JSON encoding with media type `application/json`. |
| `Base.Perform` | Client/BaseClient.cs:33-63 | For a known verb, the outcome is `Conclude` of the reply to the request sent with the given headers. For an unrecognised verb, it is the outcome for the fresh empty response. |
| `Base.ClientBase.constructor` | Client/BaseClient.cs:15-23 | Every instance works on the same shared `HttpClient`. |
| `Base.ClientBase.SetHeaders` | Client/BaseClient.cs:88-108 | Changes the shared default headers exactly as `SetHeadersSpec` says, up to the first `Add` that throws, and reports whether every entry was carried out. |
| `Base.ClientBase.PerformRequest` | Client/BaseClient.cs:25-63 | Applies the headers whatever the outcome. If an `Add` throws, the call ends in that `FormatException`. Otherwise the request goes out with the new shared headers and the outcome is `Perform`'s, in a fresh envelope. |
| `Base.SharedAcrossInstances` | Client/BaseClient.cs:15 | Header changes made through one instance, even by a call that threw, stay in place when a second instance applies its own. |
| `Dao.WhereMembership` | Dao/BaseDao.cs:102-103 | A row is in the filtered query exactly when it is a row of the store and satisfies the predicate. |
| `Dao.WhereConcat` | Dao/BaseDao.cs:102-103 | Filtering keeps the store order: filtering two runs of rows one after the other gives the two results one after the other. |
| `Dao.WhereAt` | Dao/BaseDao.cs:102-103 | A matching row at position i comes out at the position equal to the number of matching rows before it. |
| `Dao.WhereRowsCount` | Dao/BaseDao.cs:102-103 | Over the rows of distinct keys, the filtered query has one row per key whose row satisfies the predicate. |
| `Dao.FilterMembership` | Dao/BaseDao.cs:100-103 | With a null predicate every row is kept. Otherwise exactly the rows satisfying it are kept. |
| `Dao.SelectMembership` | Dao/BaseDao.cs:105-107 | The projected query holds exactly the projections of the rows of the query. |
| `Dao.Without` | Dao/BaseDao.cs:89 | Removing a row drops exactly its key from the store order and keeps the other keys distinct. |
| `Dao.BaseDao.constructor` | Dao/BaseDao.cs:18-22 | The accessor starts over an empty, valid store with the given mapping functions. |
| `Dao.BaseDao.ReadModel` | Dao/BaseDao.cs:28-39 | Returns a value exactly when a row with that id exists, and then it is that row's projection. It is a read-only query. |
| `Dao.BaseDao.QueryModel` | Dao/BaseDao.cs:96-110 | The result holds exactly the projections of the rows that satisfy the predicate, or of every row when the predicate is null, and as many results as such rows. With a null predicate, the i-th result projects the i-th row in store order. It is a read-only query. |
| `Dao.BaseDao.QueryModelInStoreOrder` | Dao/BaseDao.cs:96-110 | The results come in store order. A matching row comes out after all the matching rows that precede it in the store. |
| `Dao.BaseDao.CreateModel` | Dao/BaseDao.cs:41-54 | Adds exactly one row: the mapped create model, under a key the store did not hold. It keeps every other row and returns what a later `ReadModel` of that key returns. |
| `Dao.BaseDao.UpdateModel` | Dao/BaseDao.cs:56-74 | For an absent id, returns null and leaves the store unchanged. Otherwise only that row's fields change, to the update applied to them. No row is added or removed, and the result equals a later `ReadModel(id)`. |
| `Dao.BaseDao.DeleteModel` | Dao/BaseDao.cs:76-94 | For an absent id, returns null and leaves the store unchanged. Otherwise it returns the projection taken before removal. It removes exactly that row from the table and the store order, after which `ReadModel(id)` is null. |

## Left out

- Logging (`ILogger`) is not modelled. It has no effect on results.
- Localization is not modelled beyond its key. The fallback lookup it would serve can never be
  reached.
- `Dao.BaseDao.QueryModel`: the store order is modelled as insertion order. `CreateModel` appends
  a key, `DeleteModel` keeps the other keys in order, and every query sees the same order.
  Without `OrderBy` (Dao/BaseDao.cs:100-107) EF Core promises no order, so the order lemmas hold
  for this model of the store, not for every database provider.
- Async/await and cancellation tokens are not modelled. The model is sequential.
- The network sends are the `send` parameter. `EnsureSuccessStatusCode` is modelled by its
  effect: statuses 200 to 299 pass. Any other status throws an `HttpRequestException` with the
  message "Response status code does not indicate success: N (reason)."
- Reading the response stream is not modelled. The body is part of the response value.
- JSON encoding and decoding are the `encode` and `decode` parameters.
  - A serializer failure in `ClientBase` is not modelled: `encode` is total.
  - A decoder failure is modelled as an escaping `JsonException`.
- `Headers.HttpClient.Add`: the header store's validation beyond the single Authorization
  value is not modelled. It would also throw for a name that is not a token, for a
  content-only name such as Content-Type, and for a value that does not parse. Header names
  ignore case for ASCII letters only; other names are not valid tokens anyway.
- `Headers.HttpClient.Add`: an Accept value is kept as one entry. The store would split a
  comma-separated list into several media types.
- `Headers.HttpClient.Add`: other known headers with a single value (Host, Referer and so on)
  are treated as headers added by name; their own single-value rule is not modelled.
- `Headers.ParseAuthorization` splits at the first space and drops the spaces after it. The
  store's full grammar for credentials and its trimming of trailing spaces are not modelled,
  and a missing parameter is the empty string instead of null.
- A `null` header value is not modelled. A dictionary value can be null, and both
  `new AuthenticationHeaderValue(key, null)` and `Add(key, null)` accept it; here every value
  is a string.
- A new `HttpResponseMessage` is modelled as status 200, reason "OK" and empty content. That is
  what the runtime gives from .NET 5 on. On older runtimes its content is null, and reading it
  would throw a `NullReferenceException`. That case is not modelled.
- `HttpMethod` is a datatype with four known verbs and `Other`. The model does not capture that
  a custom `HttpMethod` spelled "get" compares equal to GET.
- The envelope type of `ClientBase` comes from another namespace (`Twitchbot.Base.Models`). That
  file is not part of this model, so it is taken to have the same shape as `HttpResultModel`.
- `ClientBase`'s static `_client` is modelled as one `HttpClient` object handed to every
  instance's constructor.
- The mapping functions of AutoMapper are modelled as given functions. AutoMapper's
  configuration, reflection and query translation are not modelled.
- EF Core change tracking is not modelled, and neither is the split between pending and saved
  changes. Every mutation is saved before the next read, so the results are the same.
- `FindAsync` caching is not modelled.
- `SaveChangesAsync` failures are not modelled; they would propagate uncaught.
- `Dao.BaseDao.UpdateModel`: the update mapping changes entity fields only, never the key.
  EF Core refuses a change to the key of a tracked entity, and that is not modelled.
- `Dao.BaseDao.CreateModel`: the store's choice of new key is modelled as an identity column.
  It takes `nextId` and then increments it. A real database may choose any key it does not hold.
- `Dao.BaseDao.constructor` starts from an empty store instead of an existing database context.
- The generic constraint `TEntity : IBaseDao<...>` is not modelled. Only the integer `Id` of
  `IHaveIdentifier` matters here, and it is the table key.
- The request logging middleware, the test host bootstrap and the two interface files are not
  part of this model. They hold no decision logic.
