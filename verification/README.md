# Finance tracker ledger core, in Dafny

A model of the server-side core of a personal finance tracker (NestJS + Mongoose), with
proofs about it. The core has four services and the contracts around them:

- **Transaction service** (`Ledger`). `create` inserts a ledger entry and adds its signed
  amount to an account balance, inside one Mongo session. `delete` removes an owner's entry
  and applies the inverse amount, also inside one session. `findAll` lists an owner's entries
  through optional type, category and date filters, newest first. A session is a working copy
  of the two collections. It is committed whole or dropped on abort, and infrastructure faults
  come in as a parameter. `LedgerInvariant` proves the bookkeeping invariant: each balance is
  the opening balance plus the signed entries on that account, provided every entry's account
  exists. It also proves that deleting what `create` just inserted restores the state exactly.
- **Transaction schema and DTO** (`TransactionSchema`, `TransactionDto`,
  `TransactionController`). These cover the required paths of the entry document, the
  class-validator rules of the request body, and the route that connects them.
- **Account service** (`AccountDto`, `Accounts`). Creation, with a default opening balance of
  0. Owner-scoped listing. Owner-scoped deletion, which reports "Access denied" when the id
  belongs to someone else and "Account not found" otherwise.
- **Category service** (`Categories`, `Text`). The name is trimmed, required, at most 50
  characters, and unique per owner, with a duplicate reported as a conflict. Listing is
  sorted by name. Deletion is owner-scoped. The JSON transform hides internal keys.
- **Object id pipe** (`ObjectIds`, `ParseObjectIdPipe`). The pipe accepts exactly the
  canonical 24-digit lower-case hex strings. Printing an id and parsing it back is the
  identity.
- **Currencies** (`Currencies`). The enum, its value list, the symbol table, and the symbol
  prefix of a formatted amount.
- **Sign-up and sign-in** (`AuthForms`). The client's form schemas and the server's
  `RegisterDto`. The proofs say exactly when a password the client accepts is refused by the
  server.

Supporting modules: `Wrappers` (Option/Result), `Json` (request values), `Seqs` (filter,
find, remove, map), `Sorting` (a sort proved to be an ordered permutation).

Behaviour of the code worth noting:

- `delete` with no matching entry returns `null` rather than failing with a not-found error.
- `create` never stamps the caller's id. The controller passes it as a second argument that
  `create` does not declare, so every request through the route fails schema validation on
  `userId` (`TransactionController.CreateRoute`).
- The entry schema gives `date` no default, so a body without a date fails as well.
- `create` only checks that the amount is a number. Positivity is enforced by the DTO, not
  by the service.
- The file `server/src/account/schemas/account.schema.ts` declares no `currency`, no
  timestamps and no `AccountDocument`, yet the account service reads all three. The model
  follows the service and the DTO: it stores the currency.

## Model

| member | source | states |
|---|---|---|
| Ledger.Create | server/src/transaction/transaction.service.ts:14-37 | A missing amount fails before any write. A draft the schema refuses fails with exactly the missing paths. Success happens exactly when the amount is present, the draft is valid, no fault occurs and the id is fresh. A success appends the entry and adds its signed amount to its account only. Every failure leaves both collections unchanged, so there is never an orphan entry. |
| Ledger.Delete | server/src/transaction/transaction.service.ts:39-59 | `null` is returned exactly when no entry has both the id and the owner, and nothing changes. When one exists and no fault occurs, the first such entry is removed and its inverse amount is applied to its account. Every failure leaves the state unchanged. |
| Ledger.FindAll | server/src/transaction/transaction.service.ts:61-71 | Fails with an invalid-id error exactly on a category filter that does not cast to an object id. Otherwise it fails with an invalid-date error exactly when a `from` or `to` bound is an Invalid Date, which the query cast refuses. Otherwise the result holds exactly the entries that satisfy every supplied filter, with their multiplicities, in non-increasing date order. |
| Ledger.FindOwned | server/src/transaction/transaction.service.ts:43 | The `{ _id, userId }` lookup gives the first entry with both the id and the owner, and nothing exactly when no entry has both. |
| Ledger.ListingSelected | server/src/transaction/transaction.service.ts:62-70 | The query built from the filters finds exactly the caller's entries that pass every supplied filter, with their multiplicities, sorted newest first. |
| Ledger.IncBalanceTotal | server/src/transaction/transaction.service.ts:24-28 | `$inc` moves the sum of all balances by the delta once per account carrying the id, and changes nothing but balances. |
| Ledger.CountIdUnique | server/src/account/account.service.ts:20-31 | Under the `_id` index, at most one account carries an id, and exactly one does when the id exists. |
| Ledger.IncBalanceUniqueTotal | server/src/transaction/transaction.service.ts:24-28 | With unique ids, like `findByIdAndUpdate`, the update moves the total by the delta when the account exists and leaves it alone when it does not. |
| Ledger.IncBalanceTwice | server/src/transaction/transaction.service.ts:46-50 | Two increments of the same account add up. |
| LedgerInvariant.CreatePreservesConsistency | server/src/transaction/transaction.service.ts:14-37 | When every entry's account exists and the draft names an existing account, `create` keeps balance = opening + sum of signed entries for every account, whether it succeeds or fails. |
| LedgerInvariant.DeletePreservesConsistency | server/src/transaction/transaction.service.ts:39-59 | `delete` keeps the same invariant under every outcome. |
| LedgerInvariant.DeleteFound | server/src/transaction/transaction.service.ts:39-59 | When the lookup finds entry `i` and nothing fails, `delete` returns that entry, removes it, and applies its inverse amount to its account. |
| LedgerInvariant.RemoveEntryPreservesConsistency | server/src/transaction/transaction.service.ts:43-50 | Removing one entry together with the reversal of its amount keeps the invariant. |
| LedgerInvariant.SumForRemove | server/src/transaction/transaction.service.ts:43-50 | Removing one entry lowers its account's sum by exactly its signed amount and leaves other accounts' sums alone. |
| LedgerInvariant.SumForUnused | server/src/account/account.service.ts:20-31 | An account that no entry points at has sum 0. |
| LedgerInvariant.FindOwnedAppended | server/src/transaction/transaction.service.ts:43 | After an entry with a fresh id is appended, the owner-and-id lookup finds that entry. |
| LedgerInvariant.DeleteUndoesAppend | server/src/transaction/transaction.service.ts:39-59 | Deleting a just-appended entry returns it and restores both collections exactly. |
| LedgerInvariant.CreateThenDeleteRestores | server/src/transaction/transaction.service.ts:14-59 | A successful `create` followed by `delete` of the new id by its owner gives back the original balances and entries, and returns the created entry. |
| LedgerInvariant.CreateOnMissingAccountBreaksConsistency | server/src/transaction/transaction.service.ts:22-28 | Without the existing-account side condition the invariant fails. On an empty store, `create` inserts the entry while the balance update matches nothing. |
| LedgerInvariant.CreateAccountPreservesConsistency | server/src/account/account.service.ts:20-31 | Opening an account extends the invariant, with its initial balance as the opening balance. |
| LedgerInvariant.DeleteAccountPreservesConsistency | server/src/account/account.service.ts:44-61 | Deleting an account that no entry points at keeps the invariant. |
| LedgerInvariant.KeptAccountsConsistent | server/src/account/account.service.ts:44-61 | Keeping only some accounts keeps the invariant, as long as every entry's account is among them. |
| LedgerInvariant.DeleteAccountWithEntriesBreaksConsistency | server/src/account/account.service.ts:44-61 | Deleting an account that still has entries leaves those entries without an account. |
| LedgerScenarios.DeleteForeignEntryIsNoop | server/src/transaction/transaction.service.ts:43-44 | Deleting another owner's entry returns `null` and changes no entry and no balance. |
| LedgerScenarios.IncomeExpenseDeleteScenario | server/src/transaction/transaction.service.ts:14-59 | Balance 100, then an income of 50 gives 150. An expense of 30 then gives 120. Deleting the income gives 70, and only the expense entry remains. |
| TransactionSchema.Validate | server/src/transaction/schemas/transaction.schema.ts:4-26 | A draft is accepted exactly when type, amount, both ids, date and userId are present and the ids cast. A refusal names exactly the missing paths. An accepted document carries the draft's values. |
| TransactionSchema.NoteIsOptional | server/src/transaction/schemas/transaction.schema.ts:21-22 | The note never decides acceptance, and it is stored as given. |
| TransactionDto.Validate | server/src/transaction/dto/create-transaction.dto.ts:4-31 | A body is accepted exactly when every decorator passes: type income/expense, positive number, string ids, optional ISO date, optional string note. A refusal lists every failing property. An accepted DTO reproduces the body's values. |
| TransactionDto.ToDraft | server/src/transaction/transaction.controller.ts:40-45 | The object handed to `create` has the DTO's type and amount. It has a date exactly when the body has one that the date cast accepts, and that date is the cast's result. It never has a `userId`. |
| TransactionController.DraftMissingFields | server/src/transaction/schemas/transaction.schema.ts:6-25 | A validated DTO reaches the schema missing exactly: `userId`; any id that does not cast; and `date` when the body had none or had one the date cast refuses. |
| TransactionController.CreateRoute | server/src/transaction/transaction.controller.ts:40-45 | Every create request through the route fails validation, with `userId` always among the failing paths, and writes nothing. |
| AccountDto.Validate | server/src/account/dto/create-account.dto.ts:15-43 | A body is accepted exactly when the name is a non-empty string, the balance is absent or a number ≥ 0, and the currency is an enum code. A refusal lists every failing property. An accepted DTO reproduces the body. |
| Accounts.MapToDtoPreserves | server/src/account/account.service.ts:67-76 | The response's id parses back to the account's id. Name and balance are kept, and the currency code parses back to the currency. |
| Accounts.CreateAccount | server/src/account/account.service.ts:20-31 | Succeeds exactly when the name is non-empty and the id is fresh. It appends one account with the DTO's fields, the caller as owner, and a balance of 0 when none is given. Id uniqueness is preserved. |
| Accounts.Owned | server/src/account/account.service.ts:36-39 | The query result holds exactly the caller's accounts, each as many times as the store holds it. |
| Accounts.GetUserAccounts | server/src/account/account.service.ts:33-42 | Every account of the caller is in the response, and every response row is the mapping of one of the caller's accounts. |
| Accounts.GetUserAccountsInStoreOrder | server/src/account/account.service.ts:36-41 | The response follows store order: an empty store gives none, and adding an account appends its response exactly when the caller owns it. |
| Accounts.GetUserAccountsOwnerOnly | server/src/account/account.service.ts:33-42 | With unique ids, no other owner's account appears in the response. |
| Accounts.RemoveKeepsUnique | server/src/account/account.service.ts:45-49 | With unique ids, removing one account keeps ids unique, and the removed id no longer occurs. |
| Accounts.DeleteAccount | server/src/account/account.service.ts:44-61 | Succeeds exactly when an account has both the id and the owner. On success one such account is removed, every other account is kept, and with unique ids the id is gone. A failure says "Access denied…" exactly when the id exists under another owner, and "Account not found" otherwise. |
| Categories.ParseType | server/src/category/schemas/category.schema.ts:5-8 | Only "income" and "expense" name a category type, and parsing inverts naming. |
| Categories.ToDtoPreserves | server/src/category/category.service.ts:19-27 | The response's id parses back to the category's id. Name, type and timestamps are kept. |
| Categories.Create | server/src/category/category.service.ts:29-45 | The name is trimmed before anything else. A schema failure reports its paths. A trimmed name the owner already uses is a conflict. Otherwise one category is appended, with the trimmed name, the caller as owner and the given type. Unique names per owner and unique ids are preserved. |
| Categories.DuplicateNameConflicts | server/src/category/schemas/category.schema.ts:59 | Creating, for the same owner, a name that trims to an existing category's name is refused with a conflict. |
| Categories.ByNameTotalPreorder | server/src/category/category.service.ts:50 | Ordering by name is a total preorder, so sorting by it is well defined. |
| Categories.OwnedByName | server/src/category/category.service.ts:47-51 | The query result is a permutation of the caller's categories in non-decreasing name order. |
| Categories.ResponsesOf | server/src/category/category.service.ts:53 | Mapping the caller's sorted categories to responses keeps the name order. The responses are the responses of the caller's categories, each as often as those categories give it. |
| Categories.FindAll | server/src/category/category.service.ts:47-54 | The listing is in non-decreasing name order. It is a rearrangement of the responses of the caller's categories in store order, multiplicities included. |
| Categories.RemovePreservesWellFormed | server/src/category/category.service.ts:56-62 | Removing one category keeps names unique per owner and ids unique, and its id is gone. |
| Categories.Delete | server/src/category/category.service.ts:56-67 | Succeeds exactly when a category has both the id and the owner. That one category is removed and every other is kept. Otherwise it fails with "Category not found". |
| Categories.ToJson | server/src/category/schemas/category.schema.ts:10-20 | The serialized category has exactly the keys id, name, type, createdAt and updatedAt. `_id`, `__v` and `userId` are removed, and `id` is the printed object id. |
| Text.ContentStart | server/src/category/schemas/category.schema.ts:26 | The position of the first non-whitespace character at or after the start: everything skipped is whitespace. |
| Text.ContentEnd | server/src/category/schemas/category.schema.ts:26 | The end of the content before a stretch of trailing whitespace: everything cut is whitespace, and the last kept character is not. |
| Text.Trim | server/src/category/schemas/category.schema.ts:26 | The result has no whitespace at either end, and it is the input with only leading and trailing whitespace removed. |
| Text.TrimIdempotent | server/src/category/schemas/category.schema.ts:26 | Trimming twice is trimming once. |
| Text.LexLeTotal | server/src/category/category.service.ts:50 | Any two names are ordered one way or the other. |
| Text.LexLeTransitive | server/src/category/category.service.ts:50 | Name order is transitive. |
| Text.LexLeAntisymmetric | server/src/category/category.service.ts:50 | Names ordered both ways are equal. |
| ObjectIds.FromString | server/common/pipes/parse-object-id.pipe.ts:35 | Casting succeeds exactly on the strings the validity check accepts. |
| ObjectIds.ToString | server/common/pipes/parse-object-id.pipe.ts:45 | Printing always gives 24 lower-case hex digits. |
| ObjectIds.ParseToString | server/common/pipes/parse-object-id.pipe.ts:44-45 | A printed id is valid and parses back to the same id. |
| ObjectIds.ToStringParse | server/common/pipes/parse-object-id.pipe.ts:44-45 | A canonical string parses to an id that prints as that string. |
| ObjectIds.RoundTripIffCanonical | server/common/pipes/parse-object-id.pipe.ts:43-52 | For a valid string, parse-then-print is the identity exactly when the string is canonical. |
| ObjectIds.ToStringInjective | server/src/account/account.service.ts:69 | Distinct ids print differently. |
| ParseObjectIdPipe.Transform | server/common/pipes/parse-object-id.pipe.ts:15-55 | A falsy value is refused as missing, and a truthy non-string as the wrong type. A string that fails the validity check is refused as malformed. The pipe accepts exactly the canonical strings, and the id it returns prints as the input. |
| ParseObjectIdPipe.AcceptsEveryPrintedId | server/common/pipes/parse-object-id.pipe.ts:43-54 | Every printed id passes the pipe and gives the same id back. |
| ParseObjectIdPipe.TransformIdempotent | server/common/pipes/parse-object-id.pipe.ts:15-55 | Feeding the pipe's printed result back in gives the same result. |
| ParseObjectIdPipe.ByteStringPassesIsValidButIsRejected | server/common/pipes/parse-object-id.pipe.ts:35-52 | A 12-character string passes the validity check but fails the conversion check. |
| ParseObjectIdPipe.UpperCaseHexIsRejected | server/common/pipes/parse-object-id.pipe.ts:43-52 | 24 hex digits with any upper-case letter pass the validity check but fail the conversion check. |
| Currencies.FromCode | server/common/enums/currency.enum.ts:5-16 | A code names at most one currency, and parsing inverts the code of every currency. |
| Currencies.StringValues | server/common/enums/currency.enum.ts:21-23 | Keeps only string values of the input. |
| Currencies.CurrencyValuesInOrder | server/common/enums/currency.enum.ts:21-23 | The value list is RUB, USD, EUR, CNY, CZK, in declaration order. |
| Currencies.CodeListParses | server/common/enums/currency.enum.ts:5-11 | A string is in the code list exactly when it parses as a currency. |
| Currencies.CurrencyValuesExact | server/common/enums/currency.enum.ts:21-23 | The list has five distinct codes, holds every currency's code, and holds exactly the strings that parse as a currency. |
| Currencies.GetSymbol | server/common/enums/currency.enum.ts:46-52 | The lookup gives a non-empty own symbol exactly for the enum codes. It gives an inherited member exactly for the names objects inherit from `Object.prototype`. Any other code fails as unsupported. |
| Currencies.SymbolsTotalAndDistinct | server/common/enums/currency.enum.ts:32-38 | Every currency has its own symbol, and different currencies have different symbols. |
| Currencies.PrototypeKeyIsNotRefused | server/common/enums/currency.enum.ts:46-52 | "toString" is not a currency, yet the lookup finds the inherited method and does not throw. |
| Currencies.FormatAmount | server/common/enums/currency.enum.ts:61-68 | Formatting succeeds exactly for enum codes and inherited property names. For an enum code the text is the currency's symbol followed by the rendered amount. For an inherited name it is the member's string form followed by the amount. Any other code fails as unsupported. |
| AuthForms.ValidateRegister | client/src/components/auth/RegisterForm.jsx:6-19 | The sign-up form is accepted exactly when: the email is filled and well formed; the password is filled, has at least 8 characters, and contains a lower-case letter, an upper-case letter and a digit; the confirmation is filled and equals the password; and the terms box is not explicitly false. It reports `agreeTerms` exactly when the box is false. |
| AuthForms.ValidateLogin | client/src/components/auth/LoginForm.jsx:6-9 | The sign-in form is accepted exactly when the email is filled and well formed and the password has at least 6 characters. |
| AuthForms.FormBody | client/src/pages/auth/AuthPage.jsx:23-28 | The posted body carries the form's email and password as strings. |
| AuthForms.ValidateRegisterDto | server/src/auth/dto/register.dto.ts:4-20 | The body is accepted exactly when the email is a string the validator accepts and the password is a string whose `isLength` measure is 6 to 30. An accepted body reproduces both. |
| AuthForms.ValidatorLengthBounds | server/src/auth/dto/register.dto.ts:18-19 | The `isLength` measure is at most the character count, and equals it when the string has no variation selector. |
| AuthForms.VariationSelectorNotCounted | server/src/auth/dto/register.dto.ts:18-19 | A trailing U+FE0F adds nothing to the `isLength` measure. |
| AuthForms.FormPasswordFitsDtoIff | server/src/auth/dto/register.dto.ts:18-20 | For a sign-up form the client accepts, the server accepts the password exactly when its `isLength` measure is 6 to 30. Without variation selectors, that means at most 30 characters. |
| AuthForms.FormAcceptedDtoAccepted | client/src/components/auth/RegisterForm.jsx:6-19 | Suppose every address the client accepts is also accepted by the server. Then an accepted sign-up form whose password measures 6 to 30 passes `RegisterDto` with the same credentials. |
| AuthForms.LongPasswordPassesFormOnly | client/src/components/auth/RegisterForm.jsx:8-13 | A 31-character password passes the sign-up form and is refused by the server. |
| AuthForms.SelectorPasswordPassesDto | server/src/auth/dto/register.dto.ts:18-19 | A 31-character password ending in U+FE0F passes `RegisterDto`, because it measures 30. |
| AuthForms.RegisteredCredentialsPassLogin | client/src/components/auth/LoginForm.jsx:6-9 | Credentials the sign-up form accepts also pass the sign-in form. |

## Left out

- Transfers, the summary and the balance history are not modelled. The controller calls
  `getSummary`, `transferFunds` and `deleteTransaction`
  (`server/src/transaction/transaction.controller.ts:72`, `:82`, `:90`). The transaction
  service defines none of them, so those routes have no service code to model. The
  service's own `delete` is modelled instead.
- Ledger.Delete: takes the entry id and the owner id as object ids. They stand for the
  pipe-checked id the delete route would pass, not the service's `string` parameters. A
  string that does not cast is not modelled for this operation.
- The transaction schema's `timestamps: true`
  (`server/src/transaction/schemas/transaction.schema.ts:4`) adds `createdAt` and
  `updatedAt` to each entry. Entry timestamps are not modelled, because nothing in the core
  reads them.
- Auth, users, the other controllers and modules, the second object-id pipe under
  `server/src/common/pipes`, the category DTO and the React components are not part of this
  model. The exception is the create route of the transaction controller, which shows how
  `create` is called.
- Amounts are integers. JavaScript floating point, `NaN` and fractional amounts are not
  modelled.
- Locale formatting (`toLocaleString`) is a `render` parameter of `FormatAmount`, so only
  the symbol prefix is stated.
- `formatBalance` in the account service only forwards to `formatAmount`, which is modelled.
- Library checks are parameters: email syntax (`isEmail` for yup, `cvEmail` for
  class-validator), ISO 8601 date syntax (`isIsoDate`), and date parsing (`toDate`).
- Dates and timestamps are integers. Category timestamps come in as a `now` parameter.
  Account timestamps are not modelled.
- String lengths are counted in Unicode code points. The yup `min`/`max` rules and Mongoose's
  `maxlength` count UTF-16 units instead, which differs only for characters outside the
  Basic Multilingual Plane. The server's `@MinLength`/`@MaxLength` use validator.js
  `isLength`, and that is modelled exactly (`AuthForms.ValidatorLength`): a surrogate pair
  counts once, and U+FE0E and U+FE0F do not count at all.
- Concurrency between sessions is not modelled. Each session is one atomic state
  transition, and driver failures are the injected `Fault`.
- Logging and the exact text of the pipe's BadRequest messages are left out. Each refusal
  is a `Rejection` kind.
- The validation pipe is taken to strip properties a DTO does not declare (`whitelist: true`).
  That is not `ValidationPipe`'s default, and no bootstrap file of the repository shows the
  setting. Under the default, undeclared properties pass through. A body carrying a castable
  `userId` would then reach `create` and succeed under an owner the client chose.
  TransactionController.CreateRoute: its "every request fails on `userId`" holds only under
  the stripping assumption.
- AuthForms.FormAcceptedDtoAccepted: its hypothesis, that every address yup's email pattern
  accepts is one validator.js `isEmail` accepts, does not hold of the real libraries. yup's
  HTML-style pattern accepts `a@b`, while `isEmail` requires a top-level domain by default.
  The lemma states what follows where the two agree. `AuthForms.LongPasswordPassesFormOnly`
  shows a disagreement that needs no such hypothesis.
- Ledger.IncBalance: updates every account carrying the id, while `findByIdAndUpdate`
  updates at most one. The two agree because the `_id` index keeps ids unique: see
  `Ledger.IncBalanceUniqueTotal`. `LedgerInvariant.Consistent` does not itself require
  unique account ids.
- Currencies.FormatAmount: the string form of an inherited member (for a method, its
  source text) is a `show` parameter.
- ObjectId validity and printing follow the bson 4.x rules:
  - 24 hex digits of either case, or any 12-character string;
  - printing gives lower-case hex.

  A 12-character string is taken as 12 byte values of at most one byte each. Longer
  encodings are not modelled.
- Ledger.FindAll: does not fix the order of entries with equal dates. Mongo leaves that
  order unspecified, so the contract states sorted-and-permutation only.
- Categories.FindAll: does not fix the order of equal names, for the same reason. Names are
  compared by code point, which is how Mongo's default binary collation orders strings.
- Currencies.StringValues: states only that every result is a string value of the input, not
  that all of them are kept. The exact list is proved separately in
  `Currencies.CurrencyValuesInOrder`.
