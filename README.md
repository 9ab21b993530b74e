# NestJS catalog backend: registries, users, guards and request parsing

This project models the parts of a NestJS product-catalog backend that carry
behaviour of their own, and proves properties of them in Dafny.

- **Name registries** (`CategoryService`, `TagService`). Each keeps a table
  from id to name.
  - `create` and `update` store the lower-cased name.
  - A uniqueness query rejects a name another row holds. On update the row's
    own id is left out of the query, but only when that id is truthy.
  - A missing id raises NotFound before anything changes.
  - Each service is a class over a map with a fresh-id counter. Its invariant
    says that ids are positive, every name is lower-case, and no name is held
    twice. Every method keeps the invariant.
- **User directory** (`UsersService`). A class over a map of users. It keeps
  the unique constraints on username and email.
  - Create checks the username before the email.
  - Create stores only bcrypt's hash of the password.
  - Update hashes a supplied non-empty password and writes a supplied empty
    one unchanged, as the plain empty string.
  - Remove does no existence check.
  - The credential check is false for an unknown username.
  - bcrypt's `hash` and `compare` are function values given to the service.
    The random salt is a parameter of each call.
- **Authorisation guards**.
  - `RolesGuard.canActivate` is a decision function over the handler's and
    the class's role metadata and the request's user.
  - `JwtAuthGuard.canActivate` refuses a route path containing `/role` to
    anyone but an Admin, then hands over to passport's JWT strategy. The
    strategy's answer is a parameter.
- **Request parsing**.
  - `ProductsController` turns path and query strings into ids with
    `parseInt(…, 10)`. It refuses NaN before the products service is called
    and wraps what the service returns. The products service is a record of
    function values, each answering with a value or the exception the
    database raised; the handlers let such an exception escape after the
    call.
  - `FindProductsDto` turns a comma-separated `tagIds` string into a list of
    integers, declares three rules on it, and coerces `categoryId` with
    `Number`.
- **JavaScript built-ins**, modelled on the subset the code needs here (see
  "## Left out" for what lies outside it):
  - `parseInt(s, 10)` with exact integers, and `Number(s)` on whole decimal
    numbers, both on strings, with NaN as `None`.
  - `String.prototype.split`, `includes`, and `toLowerCase` on ASCII letters.
  - The template-literal rendering of an integer below 10^21.

Files:
- `wrappers.dfy`: `Option`, the HTTP exceptions and `Outcome`.
- `text.dfy`: string operations.
- `numbers.dfy`: number conversions.
- `name_table.dfy`: the uniqueness query and invariant lemmas that categories
  and tags share.
- `category_service.dfy`, `tag_service.dfy`, `users_service.dfy`: the three
  services.
- `roles_guard.dfy`, `jwt_guard.dfy`: the two guards.
- `products_controller.dfy`, `find_products_dto.dfy`: request parsing.

Where the repository's documented behaviour and its code disagree, the model
follows the code:
- Usernames and emails are compared exactly. They are not lower-cased.
- `UsersService.findOne` returns nothing for a missing id rather than raising
  NotFound.
- `UsersService.remove` deletes without an existence check.
- No tag-intersection filtering and no tag or category association code exists
  in the products service or the product entity, so none is modelled.
- No controller shown declares a route containing `/role`.
- `FindProductsDto` is not used by any controller shown.

## Model

| member | source | states |
|---|---|---|
| NameTable.IsNameUnique | src/category/category.service.ts:13-21 | The query answers true exactly when every row holding the lower-cased name is the excluded row. A row is excluded only when the exclude id is present and not 0. |
| NameTable.TakenNameRejected | src/category/category.service.ts:13-26 | A name equal to a stored one up to letter case is not unique when there is no exclude id, so create rejects it. |
| NameTable.NameOfOtherRowRejected | src/category/category.service.ts:16-17 | A rename to a name held by a different id is rejected. |
| NameTable.OwnNameAccepted | src/category/category.service.ts:47-49 | A row with a truthy id may be renamed to its own name in any letter case, given the table invariant. |
| NameTable.ZeroIdCannotKeepOwnName | src/category/category.service.ts:16 | With exclude id 0, which is falsy, the row with id 0 finds itself, so it cannot keep its own name. |
| NameTable.WriteKeepsInvariant | src/category/category.service.ts:28 | Writing the lower-cased name after a successful query keeps every name lower-case and pairwise distinct. This covers create (no exclude id) and update (the row's own id). |
| Category.NotFoundMessage | src/category/category.service.ts:40 | The NotFound message starts with "Category with ID ", and `parseInt` of the text after that prefix reads back the id. |
| Category.CategoryService.constructor | src/category/category.service.ts:8-11 | An empty table whose first generated id is 1 satisfies the invariant. |
| Category.CategoryService.IsCategoryNameUnique | src/category/category.service.ts:13-21 | The service's query over its own table, with the same meaning as NameTable.IsNameUnique. |
| Category.CategoryService.FindAll | src/category/category.service.ts:32-34 | The result holds exactly the table's rows. |
| Category.CategoryService.FindOne | src/category/category.service.ts:36-42 | Returns the row for an existing id. Otherwise raises NotFound with the id in the message. |
| Category.CategoryService.Create | src/category/category.service.ts:23-30 | A taken name gives BadRequest and changes nothing. Otherwise the lower-cased name is inserted under a fresh id, every other row is unchanged, and that row is returned. The invariant is kept. |
| Category.CategoryService.Update | src/category/category.service.ts:44-54 | A missing id gives NotFound before the uniqueness check, and nothing changes. A name held by another row gives BadRequest. Otherwise only that row's name changes, to the lower-cased name. The invariant is kept. |
| Category.CategoryService.Remove | src/category/category.service.ts:56-59 | A missing id gives NotFound and nothing changes. Otherwise exactly that id is deleted. |
| Category.CreateTwiceRejected | src/category/category.service.ts:23-26 | On a fresh service, a second create with the same name in other letter case is rejected. |
| Category.RenameToOwnNameAccepted | src/category/category.service.ts:44-53 | On a fresh service, a created category can be renamed to its own name in other letter case. |
| Tag.NotFoundMessage | src/tag/tag.service.ts:40 | The NotFound message starts with "Tag with ID ", and `parseInt` of the text after that prefix reads back the id. |
| Tag.TagService.constructor | src/tag/tag.service.ts:8-11 | An empty table whose first generated id is 1 satisfies the invariant. |
| Tag.TagService.IsTagNameUnique | src/tag/tag.service.ts:13-21 | The service's query over its own table, with the same meaning as NameTable.IsNameUnique. |
| Tag.TagService.FindAll | src/tag/tag.service.ts:32-34 | The result holds exactly the table's rows. |
| Tag.TagService.FindOne | src/tag/tag.service.ts:36-42 | Returns the row for an existing id. Otherwise raises NotFound with the id in the message. |
| Tag.TagService.Create | src/tag/tag.service.ts:23-30 | A taken name gives BadRequest and stores nothing. Otherwise exactly one row is added, holding the lower-cased name, and the others are unchanged. |
| Tag.TagService.Update | src/tag/tag.service.ts:44-54 | NotFound for a missing id before any check. BadRequest for a name owned by another id. Otherwise only the target's name changes. |
| Tag.TagService.Remove | src/tag/tag.service.ts:56-59 | NotFound for a missing id before any change. Otherwise only the target id is deleted. |
| Tag.CreateTwiceRejected | src/tag/tag.service.ts:23-26 | On a fresh service, a second create with the same name in other letter case is rejected. |
| Tag.RenameToOwnNameAccepted | src/tag/tag.service.ts:44-53 | On a fresh service, a created tag can be renamed to its own name in other letter case. |
| Users.Apply | src/users/users.service.ts:51 | The written row takes each supplied column's value and keeps the others and the id. |
| Users.ApplyNothing | src/users/users.service.ts:51 | An update that supplies no column leaves the row unchanged. |
| Users.ApplyIdempotent | src/users/users.service.ts:51 | Writing the same update twice gives the same row as writing it once. |
| Users.UsersService.constructor | src/users/users.service.ts:13-16 | An empty table with the given hash and compare satisfies the invariant. |
| Users.UsersService.FindAll | src/users/users.service.ts:39-41 | The result holds exactly the table's rows. |
| Users.UsersService.FindOne | src/users/users.service.ts:43-45 | The user with that id, or nothing. |
| Users.UsersService.FindByUsername | src/users/users.service.ts:19 | The row holding that username, or nothing exactly when no row holds it. |
| Users.UsersService.Create | src/users/users.service.ts:18-37 | A taken username gives BadRequest first, then a taken email. In both cases nothing is stored. Otherwise one row is added under a fresh id with the supplied fields and `hash(password, 10, salt)` as its password. The unique constraints are kept. |
| Users.UsersService.Update | src/users/users.service.ts:47-52 | A truthy password is replaced by its hash, and the supplied columns are written to the row. A missing id changes nothing and raises nothing. A write that would break a unique constraint fails (500) and changes nothing. |
| Users.UsersService.Remove | src/users/users.service.ts:54-56 | The table afterwards is the old one without that id, whether or not the id existed. |
| Users.UsersService.ValidateUser | src/users/users.service.ts:58-65 | False for an unknown username. Otherwise `compare(password, stored hash)` for the row holding that username. |
| Users.RegisteredUserValidates | src/users/users.service.ts:29-36 | On any valid service, if compare accepts each password against its own hash, a user whose `create` succeeds passes the credential check with the password they registered with. |
| Users.ChangedPasswordValidates | src/users/users.service.ts:47-50 | On any valid service and under the same condition, an update of any stored user to a new non-empty password succeeds, and the user then passes the check with that password under their username. |
| RolesGuard.RequiredRoles | src/auth/guards/role.guard.ts:11-14 | The handler's metadata when present, otherwise the class's. |
| RolesGuard.AnyRoleMatches | src/auth/guards/role.guard.ts:25 | `some` over the list is true exactly when the user's role is in the list. |
| RolesGuard.CanActivate | src/auth/guards/role.guard.ts:10-26 | With no metadata the result is true. With metadata, a missing user or role gives Forbidden. Otherwise the result is whether the role is required. |
| RolesGuard.NoMetadataIgnoresUser | src/auth/guards/role.guard.ts:16-18 | Without metadata every user, present or not, is admitted. |
| RolesGuard.EmptyListDeniesEveryone | src/auth/guards/role.guard.ts:16 | A present but empty list denies every user that has a role. |
| RolesGuard.OnlyMembershipMatters | src/auth/guards/role.guard.ts:25 | Two lists with the same members decide alike, whatever their order and duplicates. |
| RolesGuard.HandlerOverridesClass | src/auth/guards/role.guard.ts:11-14 | When the handler has metadata, the class's metadata has no effect. |
| RolesGuard.AdminOnlyRoute | src/auth/guards/role.guard.ts:20-25 | An Admin-only list admits exactly the users whose role is Admin. |
| JwtGuard.CanActivate | src/auth/guards/jwt.guard.ts:10-21 | A path without `/role` gives the delegate's result. On a `/role` path, a missing user gives a 500, a non-Admin gives Forbidden, and an Admin gets the delegate's result. The delegate is called only when the guard raises nothing. |
| JwtGuard.DelegatedIffPassed | src/auth/guards/jwt.guard.ts:16-20 | The delegate is called exactly when the path has no `/role` or the user is an Admin. Its answer is then the result. |
| JwtGuard.SubstringTriggers | src/auth/guards/jwt.guard.ts:14 | `/roles`, `/users/:id/role` and `/roleplay` trigger the rule. `/users/:id` does not. |
| JwtGuard.RolePathFailsBeforeAuthentication | src/auth/guards/jwt.guard.ts:11-20 | Finding, as written: with `request.user` not yet set, every `/role` path ends in a 500 without calling the delegate. |
| JwtGuard.CanActivateAfterAuthentication | src/auth/guards/jwt.guard.ts:14-20 | Corrected guard: an authentication refusal passes through. After authentication, a non-Admin on a `/role` path gets Forbidden, and anyone else passes. |
| JwtGuard.AuthenticatedAdminPasses | src/auth/guards/jwt.guard.ts:14-20 | Corrected: an authenticated Admin passes every `/role` path, and a 500 can only come from the strategy. |
| JwtGuard.CorrectedAgreesWhenUserPresent | src/auth/guards/jwt.guard.ts:14-20 | When the user is already present and the strategy admits it, the corrected and written guards agree. |
| ProductsController.WrapAll | src/products/products.controller.ts:28 | One response per product, in the service's order. |
| ProductsController.Create | src/products/products.controller.ts:12-16 | The body is passed to the service. Its product is wrapped, or its exception is the handler's. |
| ProductsController.FindAll | src/products/products.controller.ts:18-29 | An absent or empty `ownerId` reaches the service as undefined. A non-empty one that parses to NaN gives BadRequest with no service call. Otherwise the service gets the parsed value, and its list is wrapped in order or its exception escapes. |
| ProductsController.FindOne | src/products/products.controller.ts:31-39 | A NaN id gives BadRequest with no service call. Otherwise the service is asked for `parseInt(id, 10)`, and its answer, possibly null, is wrapped or its exception escapes. |
| ProductsController.Update | src/products/products.controller.ts:41-49 | The same as FindOne, with the body passed to the service. |
| ProductsController.Remove | src/products/products.controller.ts:51-58 | A NaN id gives BadRequest with no service call. Otherwise the service is asked to remove `parseInt(id, 10)`, and its answer is the handler's. |
| ProductsController.ServiceCalledIffIdParses | src/products/products.controller.ts:33-37 | In findOne, update and remove the service is called exactly when the id parses. Without a call the handler refuses with the invalid-id BadRequest, and every success went through the service. A call may still fail with the service's exception. |
| ProductsController.DecimalIdRoundTrip | src/products/products.controller.ts:33-37 | An id written in decimal reaches the service as the integer it names. |
| ProductsController.TrailingCharactersIgnored | src/products/products.controller.ts:33-36 | `12abc` asks for product 12. An id starting with a letter is refused. |
| ProductsController.EmptyOwnerIdIsNoFilter | src/products/products.controller.ts:20-22 | `?ownerId=` behaves as no owner filter. |
| Text.Lower | src/category/category.service.ts:14 | ASCII lower-casing keeps the length, lowers each character, and yields a lower-case string. |
| Text.LowerIdempotent | src/category/category.service.ts:14 | Lower-casing twice is lower-casing once. |
| Text.Contains | src/auth/guards/jwt.guard.ts:14 | `includes` is true exactly when the substring occurs at some index. |
| Text.Split | src/products/dto/find-product.dto.ts:14 | `split(',')`: at least one part. Its other properties are stated by `Text.SplitLength`, `Text.SplitPartsFree`, `Text.JoinSplit` and `Text.SplitJoin`. |
| Text.SplitLength | src/products/dto/find-product.dto.ts:14 | `split` gives one more part than there are separators. |
| Text.SplitPartsFree | src/products/dto/find-product.dto.ts:14 | No part of a split contains the separator. |
| Text.JoinSplit | src/products/dto/find-product.dto.ts:14 | Joining the parts of a split gives back the string. |
| Text.SplitJoin | src/products/dto/find-product.dto.ts:14 | Splitting a join of separator-free parts gives back the parts. |
| Numbers.ParseInt | src/products/products.controller.ts:33 | `parseInt(s, 10)`, with NaN as `None`. It has no contract of its own: `Numbers.ParseIntNaN`, `Numbers.ParseIntSkipsWhiteSpace`, `Numbers.ParseIntOfDigits`, `Numbers.ParseIntOfSignedDigitString`, `Numbers.DigitRunIsLongest` and `Numbers.ParseIntOfShowInt` state its behaviour. |
| Numbers.ShowInt | src/category/category.service.ts:40 | `${i}`: a non-empty string. `Numbers.ParseIntOfShowInt`, `Numbers.ParseIntOfShowIntFollowedBy` and `Numbers.NumberOfShowInt` state that it reads back as `i`. |
| Numbers.ParseIntOfShowInt | src/products/products.controller.ts:33 | `parseInt` of an integer's decimal rendering is that integer. |
| Numbers.ParseIntOfShowIntFollowedBy | src/category/category.service.ts:40 | `parseInt` reads `${id}` back as the id when non-digit text follows it, as in the NotFound messages. |
| Numbers.ParseIntOfDigits | src/products/products.controller.ts:33 | `parseInt` reads the digits of `n` and stops at the first non-digit after them. |
| Numbers.ParseIntOfSignedDigitString | src/products/products.controller.ts:33 | A leading `+` keeps the value of the digits and a leading `-` negates it. |
| Numbers.ParseIntSkipsWhiteSpace | src/products/products.controller.ts:33 | Leading white space never changes the result. |
| Numbers.ParseIntNaN | src/products/products.controller.ts:34 | The result is NaN exactly when no digit follows the white space and an optional sign. |
| Numbers.DigitRunIsLongest | src/products/products.controller.ts:33 | The digit prefix `parseInt` reads consists of digits and cannot be extended. |
| Numbers.DecimalValueOfShowNat | src/category/category.service.ts:40 | Reading back the digits of a rendered natural gives the natural. |
| Numbers.NumberOf | src/products/dto/find-product.dto.ts:7 | `Number(s)` on whole decimal numbers, with NaN as `None`. It has no contract of its own: `Numbers.NumberOfShowInt` and `Numbers.ParseIntVersusNumber` state its behaviour. |
| Numbers.NumberOfShowInt | src/products/dto/find-product.dto.ts:7 | `Number` of an integer's decimal rendering is that integer. |
| Numbers.ParseIntVersusNumber | src/products/dto/find-product.dto.ts:7 | `parseInt` and `Number` part ways: "12abc" gives 12 and NaN, "" gives NaN and 0, and "0x1A" gives 0 under `parseInt`. |
| FindProductsDto.TransformTagIds | src/products/dto/find-product.dto.ts:12-17 | A string becomes one `parseInt` per comma-separated segment, in order. Any other value is kept unchanged. |
| FindProductsDto.TagIdsCount | src/products/dto/find-product.dto.ts:14 | The list has one more entry than the string has commas. |
| FindProductsDto.EmptyTagIds | src/products/dto/find-product.dto.ts:14 | The empty string gives `[NaN]`, not an empty list. |
| FindProductsDto.TagIdsRoundTrip | src/products/dto/find-product.dto.ts:13-14 | A non-empty list of integers written with commas comes back as that list. |
| FindProductsDto.TagIdsErrors | src/products/dto/find-product.dto.ts:10-20 | An absent value or a closed gate reports nothing. Otherwise exactly the failing rules among IsArray, ArrayNotEmpty and IsInt-each report. |
| FindProductsDto.ValidateTagIds | src/products/dto/find-product.dto.ts:11-20 | Validation as written: the transform runs first, and the gate is tested on its result. It has no contract of its own: `FindProductsDto.ValidationNeverReports` states what it does. |
| FindProductsDto.ValidationNeverReports | src/products/dto/find-product.dto.ts:11-20 | Finding, as written: the gate sees the transformed value, so no input ever gets an error. |
| FindProductsDto.ValidateTagIdsCorrected | src/products/dto/find-product.dto.ts:11-20 | Corrected validation: the gate is tested on the raw value. It has no contract of its own: `FindProductsDto.CorrectedValidation`, `FindProductsDto.CorrectedRejectsEmpty` and `FindProductsDto.CorrectedRejectsWord` state what it does. |
| FindProductsDto.CorrectedValidation | src/products/dto/find-product.dto.ts:11-20 | Corrected gate on the raw string: the integer rule reports exactly when some segment parses to NaN, and no other rule reports. |
| FindProductsDto.CorrectedRejectsEmpty | src/products/dto/find-product.dto.ts:14-20 | Corrected: the empty string is refused by the integer rule. |
| FindProductsDto.CorrectedRejectsWord | src/products/dto/find-product.dto.ts:14-20 | Corrected: `1,abc` is refused by the integer rule. |
| FindProductsDto.CoerceCategoryId | src/products/dto/find-product.dto.ts:5-8 | An absent `categoryId` stays absent. A string becomes `Number(s)`. |
| FindProductsDto.CategoryIdValid | src/products/dto/find-product.dto.ts:5-8 | Valid exactly when absent or when `Number(s)` is not NaN. |
| FindProductsDto.CategoryIdRoundTrip | src/products/dto/find-product.dto.ts:7-8 | An integer written in decimal is valid and is read back as itself. |
| FindProductsDto.CategoryIdCoercionEdges | src/products/dto/find-product.dto.ts:6-7 | "12abc" is refused, unlike under `parseInt`. The empty string becomes 0. |

## Findings

| source | as written | input that shows it | evidently intended | confidence | as-written member | corrected member |
|---|---|---|---|---|---|---|
| src/products/dto/find-product.dto.ts:11-20 | The `ValidateIf` gate tests `typeof o.tagIds === 'string'` on the object after `@Transform` has already turned a string into an array, so the gate is always closed and IsArray, ArrayNotEmpty and IsInt never run | `tagIds=` becomes `[NaN]` and `tagIds=1,abc` becomes `[1, NaN]`; both pass validation | The three rules run on the transformed list whenever `tagIds` was sent as a string, so a NaN segment is refused | medium; not executed | FindProductsDto.ValidationNeverReports | FindProductsDto.CorrectedValidation |
| src/auth/guards/jwt.guard.ts:11-20 | The guard reads `request.user.role` before `super.canActivate`, and that call is what sets `request.user` | Any request whose route path contains `/role`, such as `/users/:id/role`, even from an Admin with a valid token: `request.user` is undefined, so reading `role` throws and the request ends in a 500 | Authenticate first, then require the Admin role on `/role` paths | medium; not executed (no controller shown declares such a route) | JwtGuard.RolePathFailsBeforeAuthentication | JwtGuard.AuthenticatedAdminPasses |

## Left out

- The database is a map per table. TypeORM's query building, relations, transactions and the race between a uniqueness check and the following save are not modelled; every operation runs alone.
- Ids are generated from a counter starting at 1, standing for the auto-increment column.
- `src/products/products.service.ts` is not part of this model. It is a thin repository wrapper, and the controller sees it only through the functions of `ProductsController.ProductsService`, each of which may answer with an exception. Which database errors occur, such as TypeORM refusing an update with an empty body, is not modelled. What `find` does with an undefined owner id is decided by TypeORM.
- bcrypt's `hash` and `compare` are uninterpreted function values. The salt bcrypt draws at random is a parameter. No property of bcrypt itself is assumed except in the two scenario methods, which state their assumption as a precondition.
- Passport's JWT strategy (`super.canActivate`) is an abstract result. Token verification, cookies and JwtService signing are not modelled.
- `Text.Lower` lowers ASCII letters only. JavaScript's full Unicode `toLowerCase` is not modelled.
- `Numbers.NumberOf` covers whole decimal numbers only. Decimals, exponents, hex, octal and binary literals, and `Infinity` are NaN in the model, whereas `Number` accepts them. So a `categoryId` such as `1.5` is refused by `FindProductsDto.CategoryIdValid` but accepted by the code.
- FindProductsDto.CategoryIdValid: `1.5`, `1e3` and `0x1A` are NaN in the model and so are refused, whereas `@IsNumber` after `Number` accepts them (src/products/dto/find-product.dto.ts:6-7). This is because `Numbers.NumberOf` covers whole decimal numbers only.
- FindProductsDto.CoerceCategoryId: `1.5`, `1e3` and `0x1A` become NaN in the model instead of the value `Number` gives them (1.5, 1000 and 26), because `Numbers.NumberOf` covers whole decimal numbers only.
- `Numbers.ParseInt` returns exact integers. Loss of precision above 2^53 and the sign of `-0` are not modelled. `Numbers.ShowInt` writes every integer in plain decimal, whereas JavaScript writes integers of magnitude 10^21 and above in exponent form (`1e+21`); ids never get that large.
- Query and body values that arrive as arrays (a repeated query key) are not modelled for `ownerId` and `categoryId`. `tagIds` keeps any non-string value unchanged, which the model does state.
- `Users.UsersService.Update`: what TypeORM does with an update that supplies no column, or with the `role` field, which has no column in the user entity, is not visible here. The model writes the supplied columns and ignores `role`.
- `Users.UsersService.Create`: the `role` of the request body is dropped, because the user entity the service uses has no `role` column.
- The role enumeration file `src/users/entities/role.enum.ts` and `src/category/entities/category.entity.ts` are not part of this model. The roles are `Roles.Role`, with the two values the code names, User and Admin.
- Auth service, auth, users, category and tag controllers, module wiring, `main.ts`, the `dist/` output, password-strength checking and the declarative DTOs other than `FindProductsDto` are framework wiring and are not modelled.
- Response serialisation (`ClassSerializerInterceptor`, `@Expose`) is not modelled. A response is the product it wraps.
