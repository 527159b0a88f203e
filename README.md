# TodoApi core, modelled in Dafny

This project models the decision logic of the TodoApi server (an ASP.NET Core
todo service with users, external logins and bearer tokens):

- **Todo store with ownership rules.** The todos table is an in-memory table
  (`TodoDb.TodoDb`): rows in insertion order and an auto-increment key. The
  bulk `Where(...).ExecuteUpdate/ExecuteDelete` statements are functions over
  the rows. The rules are the same in three places:
  - `TodoService`;
  - the five minimal-API handlers `MapTodos` registers (`TodoEndpoints`);
  - the MVC `TodosController` over the service (`TodosController`).

  The list shows only the caller's rows. Get, update and delete by id reach a
  row only for its owner or an admin, and anything else is "not found", never
  "forbidden". An id/body mismatch on PUT is 400 in the minimal API and 404 in
  the controller.
- **Current user.** `ClaimsTransformation` fills the per-request `CurrentUser`
  from the NameIdentifier claim. `CurrentUserAuthorizationHandler` admits the
  request only when a stored user was found (`Authorization`).
- **Identity store and user service.** Users are keyed by normalised
  (upper-cased) name, with passwords and (provider, key) logins
  (`Identity.UserStore`). `UserService` creates users, issues password
  tokens, and does get-or-create by external login.
- **Token claims.** `Tokens` builds the claims of RFC 7519 (sub, jti, aud),
  the optional admin role, the issuer and a 30-minute validity window. The
  constructor checks the configuration.
- **Small gates.**
  - `MethodBlocking`: 405 with an `Allow` header, per RFC 9110 sections
    15.5.6 and 10.2.1.
  - `HttpMethodNotAllowed`: an action-selector deny-list.
  - `ExternalProviders`: a filtered, memoised list of scheme names.
  - `ParameterValidation`: the `WithParameterValidation` convention and its
    validation filter.

`Wrappers` (Option, Result) and `Text` (invariant case mapping, `string.Join`,
integer rendering) are shared helpers. Each method that changes state is
specified against pure functions of the old state, such as `UpdateWhere`,
`DeleteWhere`, `CountWhere`, `ProviderNames`, `MatchingPositions` and
`FilterOutcome`. The lemmas prove what the source promises about those
functions.

## Model

| member | source | states |
|---|---|---|
| Text.ToLowerInvariant | Todo.Web/Server/Middleware/MethodBlockingMiddleware.cs:17 | same length; every ASCII letter is lower-cased and every other character kept |
| Text.ToUpperInvariant | Todo.Web/Server/Services/UserService.cs:18 | same length; every ASCII letter is upper-cased and every other character kept (the key `FindByNameAsync` looks names up by) |
| Text.ToLowerIgnoresCase | Todo.Web/Server/Middleware/MethodBlockingMiddleware.cs:17 | two paths that differ only in letter case lower-case to the same string |
| Text.JoinAppend | Todo.Web/Server/Middleware/MethodBlockingMiddleware.cs:25 | joining parts followed by one more part is the join of the parts, the separator, then that part: the parts in order with one separator between neighbours |
| Text.JoinLength | Todo.Web/Server/Middleware/MethodBlockingMiddleware.cs:25 | the joined length is the parts' total length plus one separator fewer than there are parts |
| Text.NatToString | Todo.Web/Server/Extensions/IEndpointRouteBuilderExtensions.cs:68 | the rendering of an id is non-empty decimal digits, without a leading zero, whose value is the id |
| Text.NatToStringInjective | Todo.Web/Server/Extensions/IEndpointRouteBuilderExtensions.cs:68 | different ids render differently |
| Text.IntToString | Todo.Web/Server/Extensions/IEndpointRouteBuilderExtensions.cs:68 | a non-negative id renders as decimal digits, with no leading zero, whose value is the id; a negative one as "-" followed by such digits for its magnitude |
| TodoEndpoints.TodoLocation | Todo.Web/Server/Extensions/IEndpointRouteBuilderExtensions.cs:68 | the location is "/todos/" followed by decimal digits, with no leading zero, whose value is the new id |
| TodoEndpoints.TodoLocationInjective | Todo.Web/Server/Extensions/IEndpointRouteBuilderExtensions.cs:68 | two created todos with different ids get different locations |
| Todos.AsTodoItemForgetsOnlyOwner | Todo.Web/Server/Extensions/TodoExtensions.cs:7-15 | the projection copies Id, Title and IsComplete; two todos project to the same item iff they differ at most in OwnerId |
| Authorization.FindFirstValue | Todo.Web/Server/Authorization/CurrentUser.cs:12 | None iff no claim's type matches, ignoring case; otherwise the value of the first claim whose type matches |
| Authorization.FindFirstValueIgnoresTypeCase | Todo.Web/Server/Authorization/CurrentUserAuthorization.cs:14 | asking for a claim type in any letter case gives the same value, so a NameIdentifier type written in capitals is found |
| Authorization.TransformAsync | Todo.Web/Server/Authorization/CurrentUserAuthorization.cs:10-21 | the principal is always recorded and returned unchanged; `User` becomes the lookup by a non-empty NameIdentifier (possibly none), and is left as it was without one |
| Authorization.AuthorizationHandlerContext.Succeed | Todo.Web/Server/Authorization/CurrentUserAuthorizationHandler.cs:15 | the requirement stops pending, Succeed is recorded, Fail is not |
| Authorization.HandleRequirementAsync | Todo.Web/Server/Authorization/CurrentUserAuthorizationHandler.cs:9-19 | succeeds iff a stored user was found; otherwise the requirement stays pending and Fail is not called; the current user is only read |
| Authorization.AuthorizeRequest | Todo.Web/Server/Authorization/CurrentUserAuthorizationHandler.cs:9-19 | with a fresh CurrentUser, the request is admitted iff the NameIdentifier is non-empty and names a stored user; the caller's id is that name and admin iff in role "admin" |
| Identity.UserStore.Create | Todo.Web/Server/Services/UserService.cs:13 | succeeds iff the password passes the policy, the name is valid and not taken (case-insensitively); the password is checked first; on success exactly that user and password are added, on failure nothing changes |
| Identity.UserStore.AddLogin | Todo.Web/Server/Services/UserService.cs:38 | binds (provider, key) to a stored user iff the pair is not bound yet; nothing else changes |
| TodoDb.FindRow | Todo.Web/Server/Services/TodoService.cs:25 | the row found has the id; None iff no row has it |
| TodoDb.UpdateWhere | Todo.Web/Server/Services/TodoService.cs:56-60 | same number of rows; exactly the selected rows get the new Title and IsComplete, with Id and OwnerId kept; all others are unchanged |
| TodoDb.DeleteWhere | Todo.Web/Server/Services/TodoService.cs:67-69 | a row stays iff it is not selected; the rows removed are as many as the statement affects |
| TodoDb.OwnedItemsMembers | Todo.Web/Server/Services/TodoService.cs:14-21 | the list holds exactly the projections of the rows owned by the caller's id (admins included) |
| TodoDb.OwnedItemsAppend | Todo.Web/Server/Services/TodoService.cs:16-20 | the list follows table order |
| TodoDb.CountWherePositive | Todo.Web/Server/Services/TodoService.cs:56-62 | rows are affected iff some row has the id and the caller owns it or is an admin |
| TodoDb.CountWhereAtMostOne | Todo.Web/Server/Services/TodoService.cs:56-60 | with the primary key, at most one row is affected |
| TodoDb.SelectedIffAccessible | Todo.Web/Server/Services/TodoService.cs:23-32 | with the primary key, the bulk statements affect a row iff `FindAsync` finds one the caller may access: get, update and delete agree |
| TodoDb.FindRowUnique | Todo.Web/Server/Services/TodoService.cs:25 | with the primary key, looking a row's id up finds that row |
| TodoDb.NothingSelectedNothingChanges | Todo.Web/Server/Services/TodoService.cs:56-72 | a caller who is neither owner nor admin of a row with that id changes nothing by update or delete and affects no row |
| TodoDb.DeleteWhereKeepsUniqueIds | Todo.Web/Server/Services/TodoService.cs:67-69 | deleting keeps ids unique |
| TodoDb.TodoDb.AddAndSave | Todo.Web/Server/Services/TodoService.cs:42-44 | the row is appended under a fresh key larger than every existing one |
| TodoDb.TodoDb.ExecuteUpdate | Todo.Web/Server/Services/TodoService.cs:56-60 | the table becomes UpdateWhere of the old one; the count returned is the rows affected |
| TodoDb.TodoDb.ExecuteDelete | Todo.Web/Server/Services/TodoService.cs:67-69 | the table becomes DeleteWhere of the old one; the count returned is the rows affected |
| TodoService.GetTodos | Todo.Web/Server/Services/TodoService.cs:14-21 | an item is listed iff it is the projection of a row owned by the caller |
| TodoService.GetTodoById | Todo.Web/Server/Services/TodoService.cs:23-32 | an item iff a row with that id exists and the caller owns it or is an admin; the item is that row's projection |
| TodoService.CreateTodo | Todo.Web/Server/Services/TodoService.cs:34-47 | exactly one row is added: the request's title, owned by the caller, not complete, under a new id; the result is its projection and reading that id back gives it |
| TodoService.UpdateTodo | Todo.Web/Server/Services/TodoService.cs:49-63 | an id mismatch changes nothing; true iff the ids match and the row was readable by the caller; reading it afterwards gives the new title and completion |
| TodoService.DeleteTodo | Todo.Web/Server/Services/TodoService.cs:65-72 | the selected row goes and the others stay in order; true iff it was readable by the caller; afterwards the id is not found |
| TodoEndpoints.GetTodos | Todo.Web/Server/Extensions/IEndpointRouteBuilderExtensions.cs:45-48 | 200 with the caller's own rows, the same list the service gives |
| TodoEndpoints.GetTodoById | Todo.Web/Server/Extensions/IEndpointRouteBuilderExtensions.cs:49-56 | Ok(item) iff the row exists and the caller owns it or is an admin; otherwise NotFound, never Forbidden; agrees with the service |
| TodoEndpoints.PostTodo | Todo.Web/Server/Extensions/IEndpointRouteBuilderExtensions.cs:57-69 | stores a row with the request's title, owned by the caller; Created at `/todos/{id}` with the new item |
| TodoEndpoints.PutTodo | Todo.Web/Server/Extensions/IEndpointRouteBuilderExtensions.cs:70-83 | BadRequest with no change on an id mismatch; otherwise updates the selected row; NotFound iff no row changed, Ok iff the service would have found the row |
| TodoEndpoints.DeleteTodo | Todo.Web/Server/Extensions/IEndpointRouteBuilderExtensions.cs:84-90 | removes the selected row; NotFound iff no row was removed, else Ok |
| TodosController.GetTodos | Todo.Web/Server/Controllers/TodosController.cs:16-21 | always 200 with exactly the service's list: the caller's own rows, in table order |
| TodosController.GetTodoById | Todo.Web/Server/Controllers/TodosController.cs:23-32 | 404 iff the service returns null (no accessible row), else 200 with the item |
| TodosController.CreateTodo | Todo.Web/Server/Controllers/TodosController.cs:34-39 | a todo with no title is refused with 400 and nothing changes (`[ApiController]` at line 11 with `[Required] Title`); otherwise 201 pointing at GetTodoById with the created item's id, and one row is added |
| TodosController.UpdateTodo | Todo.Web/Server/Controllers/TodosController.cs:41-49 | a todo with no title is refused with 400 and nothing changes (`[ApiController]` at line 11); otherwise 404 iff the service returns false, so an id mismatch is 404 here and changes nothing, else 200 |
| TodosController.DeleteTodo | Todo.Web/Server/Controllers/TodosController.cs:51-59 | 404 iff the service returns false, else 200 |
| Tokens.AudienceClaimsMembers | Todo.Web/Server/Authentication/TokenService.cs:28-31 | the audience claims are exactly the `aud` claims of the non-empty configured values |
| Tokens.AudienceClaimsAppend | Todo.Web/Server/Authentication/TokenService.cs:28-31 | the audience claims keep the configuration order |
| Tokens.NewTokenService | Todo.Web/Server/Authentication/TokenService.cs:18-32 | fails iff the signing key or issuer is missing or the key decodes to no bytes (empty or only white space, so `SymmetricSecurityKey` refuses it), reported in that order; otherwise it keeps issuer, key and the audience claims |
| Tokens.GenerateToken | Todo.Web/Server/Authentication/TokenService.cs:34-60 | claims are sub = username and jti first, the admin role iff asked for, then every audience claim; the configured issuer; nbf = iat = now and exp = now + 30 minutes |
| UserService.CreateUser | Todo.Web/Server/Services/UserService.cs:10-14 | succeeds iff the password and name are acceptable and the name is free; then the user is found by that name with that password |
| UserService.GenerateToken | Todo.Web/Server/Services/UserService.cs:16-24 | a token iff the user exists and the password matches; issued for the stored user name and never admin |
| UserService.GenerateExternalToken | Todo.Web/Server/Services/UserService.cs:26-48 | an existing login reuses its user and adds nothing; otherwise the submitted name is created and the login bound only then; a token iff the result succeeded, for the stored user's name |
| UserService.ExternalLoginTwice | Todo.Web/Server/Services/UserService.cs:26-48 | after a successful external sign-in, the same (provider, key) signs in again as the same subject without creating another user |
| MethodBlocking.Invoke | Todo.Web/Server/Middleware/MethodBlockingMiddleware.cs:15-34 | a restricted path with a method outside its set gets 405, `Allow` = the set joined by ", ", the body "Method Not Allowed", and next is not called; otherwise next is called with the response untouched |
| MethodBlocking.BlocksExactly | Todo.Web/Server/Middleware/MethodBlockingMiddleware.cs:10-13 | the only request stopped is `/authentication/register` (in any case) with a method other than exactly "POST", and then `Allow` is "POST" |
| MethodBlocking.BlocksIgnoresPathCase | Todo.Web/Server/Middleware/MethodBlockingMiddleware.cs:17-22 | paths differing only in letter case are treated alike |
| HttpMethodNotAllowed.Contains | Todo.Web/Server/Controllers/Attributes/HttpMethodNotAllowedAttribute.cs:16 | true iff some listed method equals the request method exactly |
| HttpMethodNotAllowed.HttpMethodNotAllowedAttribute.IsValidForRequest | Todo.Web/Server/Controllers/Attributes/HttpMethodNotAllowedAttribute.cs:12-17 | valid iff the request method differs from every listed method |
| HttpMethodNotAllowed.OnlyTheMethodMatters | Todo.Web/Server/Controllers/Attributes/HttpMethodNotAllowedAttribute.cs:12-17 | with an empty list every request is valid; route and action never change the answer |
| ExternalProviders.ProviderNames | Todo.Web/Server/Authentication/ExternalProviders.cs:30 | the result is no longer than the scheme list and never holds either excluded name |
| ExternalProviders.ProviderNamesMembers | Todo.Web/Server/Authentication/ExternalProviders.cs:30 | a name is listed iff it is a registered scheme's name and neither excluded name |
| ExternalProviders.ProviderNamesAppend | Todo.Web/Server/Authentication/ExternalProviders.cs:28-30 | the provider's scheme order is kept |
| ExternalProviders.ExternalProviders.GetProviderNamesAsyncCore | Todo.Web/Server/Authentication/ExternalProviders.cs:25-33 | queries the schemes once and returns the filtered names, never null |
| ExternalProviders.ExternalProviders.GetProviderNamesAsync | Todo.Web/Server/Authentication/ExternalProviders.cs:19-22 | the first call computes and caches the list; later calls return the cached list without asking again; the schemes are queried once in all |
| ExternalProviders.GetProviderNamesTwice | Todo.Web/Server/Authentication/ExternalProviders.cs:16-22 | two calls return the same list and the schemes are queried once |
| ParameterValidation.FirstMethodInfo | Todo.Web/Server/Extensions/TBuilderExtensions.cs:19 | None iff the metadata holds no MethodInfo; otherwise the first one's parameters |
| ParameterValidation.MatchingPositionsMembers | Todo.Web/Server/Extensions/TBuilderExtensions.cs:28-37 | a position is collected iff a parameter there has a type to validate; none iff no parameter matches |
| ParameterValidation.CollectParameterIndexes | Todo.Web/Server/Extensions/TBuilderExtensions.cs:26-37 | the list stays null iff no parameter matches; otherwise it is the matching positions in parameter order |
| ParameterValidation.EndpointBuilder.ApplyParameterValidation | Todo.Web/Server/Extensions/TBuilderExtensions.cs:17-60 | no MethodInfo or no match leaves the endpoint alone; otherwise it appends the 400 `application/problem+json` metadata and one filter over the matching positions |
| ParameterValidation.FilterOutcomeFirstRejection | Todo.Web/Server/Extensions/TBuilderExtensions.cs:49-57 | next is reached iff no checked argument is present and invalid, and then with the same arguments; otherwise the problem carries the first such argument's errors; null arguments are skipped |
| ParameterValidation.InvokeValidationFilter | Todo.Web/Server/Extensions/TBuilderExtensions.cs:47-58 | the loop with its early return computes FilterOutcome |
| ParameterValidation.PostRequiresTitle | Todo.Web/Server/Todos/TodoItem.cs:12-13 | a todo with no title is refused by the filter before the handler runs, and one with a title passes |

## Left out

- Reverse-proxy forwarding (YARP), rate limiting, startup and configuration wiring, OpenAPI metadata, security headers, cookie sign-in and external challenge flows, the HTTP clients and the UI: framework wiring, network I/O or foreign libraries.
- Asynchrony: every `async` operation is one atomic step, and concurrent requests are not modelled.
- EF Core and SQLite: the todos table is an in-memory sequence. The queries have no `ORDER BY`, so SQLite promises no row order. The model fixes insertion order as one order the database may return, and the ordering lemmas hold for that order only. Keys come from a counter starting at 1. Change tracking and `AsNoTracking` are not modelled.
- The PUT route `{id}` has no `:int` constraint, so a non-numeric id fails model binding before the handler runs. The model starts at the handler with an integer id.
- TodoDb.TodoDb.AddAndSave: `SaveChangesAsync` failures (constraint violations, I/O) are not modelled.
- Tokens.GenerateToken: HS256 signing and JWT serialisation are abstract; the token is its payload plus the key it would be signed with. The `jti` value (a hash of a fresh Guid) is a parameter. The three `DateTime.UtcNow` reads are collapsed into one `now`, in seconds.
- Tokens.NewTokenService: the base64 decoding of the signing key, and the `FormatException` on a malformed key, are not modelled. A key of zero bytes is recognised without decoding: a value that is empty or made only of the white space `Convert.FromBase64String` skips.
- Identity.UserStore.Create: password hashing is replaced by storing the password. The configured password validators are one abstract predicate. The user-name rules are limited to the default allowed characters and uniqueness. A single error is reported where Identity may collect several.
- Identity.Normalize: Identity's normaliser first applies Unicode normalisation (`string.Normalize`, which maps KELVIN SIGN U+212A to 'K', for example) and then full Unicode upper-casing. The model drops the normalisation step and maps ASCII letters only.
- Text.ToLowerInvariant: ASCII letters only; the rest of Unicode case mapping is not modelled.
- Text.ToUpperInvariant: ASCII letters only. .NET also upper-cases letters outside ASCII, for example 'ſ' (U+017F) to 'S'; the model leaves them unchanged.
- Authorization.FindFirstValue: the case-insensitive comparison of claim types folds ASCII letters only, where `OrdinalIgnoreCase` folds all of Unicode. `IsInRole` compares the same way, and the role value exactly.
- Authorization.CurrentUser.AsCaller: `Id` uses the null-forgiving `!`, so a missing NameIdentifier would give a null id. The `MapTodos` handlers run only after the current-user requirement succeeded (IEndpointRouteBuilderExtensions.cs:41), which guarantees a present id. `TodosController` carries only `[Authorize]`. It also serves an authenticated principal whose user is not in the store, and then its id can be null. The controller model assumes a present id that the source does not guarantee; a null owner id, and the null `OwnerId` it would store on create, are not modelled.
- Authorization.AuthorizeRequest: the framework's turning of an unmet requirement into 403 is not modelled; the model stops at "not admitted". It starts from an authenticated principal: the policy's `RequireAuthenticatedUser()` (Todo.Web/Server/Extensions/AuthorizationBuilderExtensions.cs:19) and the rule that claims transformation runs only after authentication succeeds are not modelled.
- ExternalProviders.ExternalProviders: the values of `CookieAuthenticationDefaults.AuthenticationScheme` and `AuthenticationSchemes.ExternalScheme` are parameters, because `AuthenticationSchemes` is not part of this model. `schemeQueries` counts the calls to `GetAllSchemesAsync`; it stands for an effect the source does not record. The cached `Task` is its list.
- MethodBlocking.Invoke: `HashSet` enumeration order for `Allow` matters only for sets of more than one method, and the table has one. A null `Path.Value` is not modelled. `WriteAsync` appends to the body.
- ParameterValidation.InvokeValidationFilter: `MiniValidator.TryValidate` is an abstract function from an argument to its errors, valid iff there are none. Arguments are required to cover every collected index; the source would throw on an index out of range. Type matching is by exact type name.
- TodosController.CreateTodo / TodosController.UpdateTodo: the automatic 400 is modelled as one `ValidationProblemResult`; the problem-details body and its messages are not. `[Required]` is read as in `Todos.HasTitle`, with ASCII white space only.
- ParameterValidation.PostRequiresTitle: `[Required]` is read as "some character that is not white space" (ASCII white space); MiniValidation's messages are not modelled.
