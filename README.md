# Investment Portfolio System: persistence, accounts and positions

This project models the core of the Investment Portfolio System, an ASP.NET
back end for managing investment portfolios. The parts modelled are:

- the **unit of work**. It owns one database context and at most one open
  database transaction. It creates each repository lazily, once, and
  translates save failures into the application's own errors.
- the **database context's save path**. It stamps `CreatedAt`/`UpdatedAt`
  on inserted and updated entities before every save.
- the **password hasher**. It stores passwords as Base64 text: a 16-byte
  salt, then a 32-byte PBKDF2-SHA256 key (10000 rounds). It also verifies a
  password against that text and generates random passwords.
- the **authentication service**. It reads its JWT settings and their
  defaults, registers accounts, logs users in by username or email, and
  refuses blank tokens.
- the **entities**: portfolio positions (cost, value, gain and return
  percentage), ledger transactions (amount and cost including commission),
  and users (defaults and full name).
- the generic **API response** envelope.

Modules, one file each except the first:

| file | module | what it holds |
|---|---|---|
| common.dfy | `Wrappers`, `Text`, `Time` | Option/Result; .NET whitespace, `IsNullOrWhiteSpace`, `Trim`; `DateTime.AddMinutes` |
| positions.dfy | `Positions` | the position record and its computed values |
| ledger.dfy | `Ledger` | the transaction record and its totals |
| users.dfy | `Users` | the user record, its defaults and `FullName` |
| api_response.dfy | `ApiResponses` | the response envelope and its two factories |
| password_hasher.dfy | `PasswordHasher` | hashing, verification, random passwords |
| timestamps.dfy | `DataContext` | change-tracker entries, the timestamp pass, the context's saves |
| unit_of_work.dfy | `UnitOfWorks` | repositories, save translation, transactions, disposal |
| auth_service.dfy | `AuthServices` | settings, registration, login, token guards |

Modelling conventions:

- Money and quantities (`decimal`) are `real`.
- A `DateTime` is a whole number of seconds.
- Whatever the code reads from the outside world is a parameter:
  - Clock readings. In the timestamp pass, the n-th reading is `clock(n)`.
  - Bytes from the random generator.
  - The result of the underlying Entity Framework save.
  - Whether a transaction's begin, commit or rollback throws.
- The cryptographic and encoding primitives (PBKDF2, Base64 encode and
  decode) are a value of type `PasswordHasher.Primitives`. Members that need
  facts about them ask for those facts in their `requires`:
  - `DerivesFullKeys`: PBKDF2 returns the 32 bytes asked for.
  - `Base64Sound`: decoding inverts encoding, and the encoding of non-empty
    bytes is not blank.
- The unit of work records every call it makes into the data-access library
  in `log`, in order. Each contract states that sequence exactly.
- The Users table is a sequence of rows in the `AuthService` object. The
  table's unique indexes on username and email, and its key, are an
  invariant (`UniqueAccounts`, in `Valid()`).

## Model

| member | source | states |
|---|---|---|
| Text.Trim | IPS.Core/Entities/User.cs:94 | `string.Trim()`: the result is the slice of the input between its longest whitespace prefix and its longest whitespace suffix; it starts and ends with no whitespace, is no longer than the input, and is empty exactly when the input is blank |
| Text.TrimOfTrimmed | IPS.Core/Entities/User.cs:94 | trimming text that starts and ends with no whitespace leaves it unchanged |
| Text.TrimLeadingSpace | IPS.Core/Entities/User.cs:94 | trimming one blank followed by trimmed text gives back that text |
| Text.TrimTrailingSpace | IPS.Core/Entities/User.cs:94 | trimming trimmed text followed by one blank gives back that text |
| Time.AddMinutes | IPS.Services/Implementations/AuthService.cs:208 | the expiry instant is exactly 60·m seconds after issue, and never earlier when m ≥ 0 |
| Positions.TotalInvested | IPS.Core/Entities/PortfolioPosition.cs:89 | the cost basis is non-negative for non-negative inputs, and zero when the quantity or the average price is zero |
| Positions.CurrentValue | IPS.Core/Entities/PortfolioPosition.cs:95 | without a current price, the position is valued at cost; at a price equal to cost, value equals cost |
| Positions.UnrealizedGainLoss | IPS.Core/Entities/PortfolioPosition.cs:101 | gain plus cost is the current value; the gain is zero without a price or at the purchase price |
| Positions.ReturnPercentage | IPS.Core/Entities/PortfolioPosition.cs:107-109 | 0 when the cost basis is not positive; otherwise the percentage times the cost is 100 times the gain |
| Positions.ReturnIsRelativePriceMove | IPS.Core/Entities/PortfolioPosition.cs:89-109 | for a held position with a positive price and a current price, the return is (price − average)/average·100, whatever the quantity |
| Positions.ReturnSign | IPS.Core/Entities/PortfolioPosition.cs:95-109 | the return is positive, zero or negative exactly as the current price is above, at or below the average price; zero with no price |
| Ledger.NewTransaction | IPS.Core/Entities/Transaction.cs:41-77 | a new transaction has zero commission, an empty type, and the given transaction and creation dates |
| Ledger.TotalAmount | IPS.Core/Entities/Transaction.cs:97 | the gross amount is non-negative for non-negative inputs, and zero when the quantity or the price is zero |
| Ledger.TotalCost | IPS.Core/Entities/Transaction.cs:103 | the cost is at least the amount when the commission is non-negative, and equals it exactly when the commission is zero |
| Ledger.FreshEntryCostIsAmount | IPS.Core/Entities/Transaction.cs:61-103 | with the default commission, a transaction's cost is its amount |
| Users.NewUser | IPS.Core/Entities/User.cs:30-72 | a new user is active, with empty username, email and hash, and no first or last name |
| Users.FullName | IPS.Core/Entities/User.cs:94 | the full name has no surrounding whitespace, is empty with no names, and is at most first + 1 + last characters long |
| Users.FullNameFirstOnly | IPS.Core/Entities/User.cs:94 | with only a (trimmed) first name, the full name is that name, with no stray blank |
| Users.FullNameLastOnly | IPS.Core/Entities/User.cs:94 | with only a (trimmed) last name, the full name is that name, with no stray blank |
| Users.FullNameBoth | IPS.Core/Entities/User.cs:94 | with both names, the full name is first, one blank, last |
| ApiResponses.SuccessResponse | IPS.Core/DTOs/ApiResponseDto.cs:42-51 | a success envelope carries the data and the message ("Success" by default) and has no error list |
| ApiResponses.ErrorResponse | IPS.Core/DTOs/ApiResponseDto.cs:55-63 | an error envelope is unsuccessful, carries the message and no data, and always has an error list: the one given, or an empty one |
| PasswordHasher.StoredBytes | IPS.Services/Helpers/PasswordHasher.cs:48-50 | the stored bytes are 48 long: the salt, then the derived key |
| PasswordHasher.Copy | IPS.Services/Helpers/PasswordHasher.cs:49-50 | `Array.Copy` overwrites exactly the target stretch with the source stretch and leaves the rest of the array as it was |
| PasswordHasher.HashPassword | IPS.Services/Helpers/PasswordHasher.cs:26-53 | refused, with its message, exactly when the password is blank; otherwise the Base64 text of salt followed by the key |
| PasswordHasher.VerifyPassword | IPS.Services/Helpers/PasswordHasher.cs:61-104 | the byte-by-byte early-exit check answers true exactly when both texts are non-blank, the hash decodes to 48 bytes, and bytes 16..47 equal the key derived with bytes 0..15 as salt |
| PasswordHasher.HashThenVerify | IPS.Services/Helpers/PasswordHasher.cs:26-104 | round trip: a non-blank password verifies against its own hash, whatever salt was drawn |
| PasswordHasher.VerifyOtherPassword | IPS.Services/Helpers/PasswordHasher.cs:61-104 | a hash verifies against another password exactly when that password derives the same key with the same salt |
| PasswordHasher.GenerateRandomPassword | IPS.Services/Helpers/PasswordHasher.cs:111-130 | refused, with its message, exactly when the length is below 8; otherwise `length` characters, character i being the alphabet entry at random byte i modulo 70 |
| PasswordHasher.GeneratedCharsInAlphabet | IPS.Services/Helpers/PasswordHasher.cs:116-126 | every character of a generated password is in the 70-character alphabet |
| DataContext.ClockReadsFor | IPS.Data/Context/IPSDbContext.cs:86-114 | the pass reads the clock at most twice per entry, and never for entries that are neither added nor modified |
| DataContext.StampEntry | IPS.Data/Context/IPSDbContext.cs:88-114 | one entry after the pass: its state, its other properties and which timestamps it has stay the same; unchanged, deleted and detached entries are left alone; a modified entry keeps `CreatedAt` and gets `UpdatedAt` from the next reading; an added entry gets `CreatedAt` and then `UpdatedAt` from two successive readings |
| DataContext.StampAll | IPS.Data/Context/IPSDbContext.cs:81-116 | the pass keeps the number of entries |
| DataContext.StampAllAt | IPS.Data/Context/IPSDbContext.cs:81-116 | entry i after the pass is entry i stamped with the readings that follow those of entries 0..i−1 |
| DataContext.TimestampPassEffects | IPS.Data/Context/IPSDbContext.cs:81-116 | for every entry: only the two timestamps can change, only for added or modified entries, never one whose lookup the null guard rejects, and each from the clock reading that corresponds to its visit |
| DataContext.ClockReadsMonotone | IPS.Data/Context/IPSDbContext.cs:86-114 | the clock is read in entry order: earlier entries use earlier readings |
| DataContext.IPSDbContext.constructor | IPS.Data/Context/IPSDbContext.cs:22-25 | the context is built over its change tracker's entries |
| DataContext.IPSDbContext.UpdateTimestamps | IPS.Data/Context/IPSDbContext.cs:81-116 | the in-place loop over the tracked entries leaves them equal to `StampAll` of the entries before |
| DataContext.IPSDbContext.SaveChanges | IPS.Data/Context/IPSDbContext.cs:63-67 | timestamps are stamped first; the underlying save's result is returned unchanged |
| DataContext.IPSDbContext.SaveChangesAsync | IPS.Data/Context/IPSDbContext.cs:72-76 | the same, for the asynchronous save |
| UnitOfWorks.TranslateSave | IPS.Data/Repositories/UnitOfWork.cs:129-149 | a successful save's row count passes through; a concurrency conflict becomes the concurrency message; any other update failure becomes the generic save message; any other exception passes through unchanged |
| UnitOfWorks.ReleaseOnce | IPS.Data/Repositories/UnitOfWork.cs:184-191 | releasing a handle not yet released keeps every handle released at most once; the rollback, commit and dispose paths use it to keep that invariant |
| UnitOfWorks.Repository.constructor | IPS.Data/Repositories/Repository.cs:27-31 | a repository is bound to the context it is built over |
| UnitOfWorks.UnitOfWork.constructor | IPS.Data/Repositories/UnitOfWork.cs:40-43 | a new unit of work has no transaction, no repositories, is not disposed and has made no calls |
| UnitOfWorks.UnitOfWork.GetRepository | IPS.Data/Repositories/UnitOfWork.cs:48-123 | the first access for a kind creates a repository over this context; later accesses return that same instance; nothing else changes |
| UnitOfWorks.UnitOfWork.SaveChanges | IPS.Data/Repositories/UnitOfWork.cs:129-149 | saves through the context (stamping timestamps) and returns the translated result |
| UnitOfWorks.UnitOfWork.BeginTransaction | IPS.Data/Repositories/UnitOfWork.cs:154-162 | refused, changing nothing, while a transaction is open; otherwise a new handle is begun and is open unless the library threw |
| UnitOfWorks.UnitOfWork.RollbackTransaction | IPS.Data/Repositories/UnitOfWork.cs:197-216 | refused, changing nothing, with no open transaction; otherwise rollback is called and the handle is released once, whether or not the rollback threw |
| UnitOfWorks.UnitOfWork.CommitTransaction | IPS.Data/Repositories/UnitOfWork.cs:167-192 | refused with no open transaction; otherwise save then commit. If either throws, it rolls back and rethrows the untranslated error, or the rollback's error instead. The handle is released exactly once on every path, and no transaction is open afterwards |
| UnitOfWorks.UnitOfWork.DisposeCore | IPS.Data/Repositories/UnitOfWork.cs:231-250 | runs once; when disposing, it releases the open transaction and then the context; it always marks the unit of work disposed |
| UnitOfWorks.UnitOfWork.Dispose | IPS.Data/Repositories/UnitOfWork.cs:221-225 | the disposing path: releases the transaction and the context once, and a second call changes nothing |
| UnitOfWorks.UnitOfWork.Finalize | IPS.Data/Repositories/UnitOfWork.cs:255-258 | the finalizer's path releases nothing and only marks the unit of work disposed |
| AuthServices.LoadJwtSettings | IPS.Services/Implementations/AuthService.cs:44-48 | a missing secret key is an error with its message. Issuer and audience are the configured values, or "PortfolioAPI" and "PortfolioClients". The expiry is the parsed value of the configured setting, or of "60" when none is configured; the only other failure is an expiry that does not parse, reported as a parse failure |
| AuthServices.FirstMatch | IPS.Services/Implementations/AuthService.cs:111-114 | `FirstOrDefault`: the index of the first row the filter matches, and none exactly when no row matches |
| AuthServices.LookupFindsTheAccount | IPS.Data/Configurations/UserConfiguration.cs:48-49 | under the unique indexes, a lookup by username or by email finds the one row holding it |
| AuthServices.LoginNameCanMatchTwoAccounts | IPS.Services/Implementations/AuthService.cs:111-114 | two accounts that satisfy the unique indexes can both match one login name (one's username is the other's email); the lookup takes the first |
| AuthServices.ValidateToken | IPS.Services/Implementations/AuthService.cs:138-166 | a blank token is refused without being parsed; a non-blank token is accepted exactly when the library validates it |
| AuthServices.GetUserIdFromToken | IPS.Services/Implementations/AuthService.cs:173-196 | a blank token yields no id; for a non-blank token the answer is exactly the library's reading of the id claim |
| AuthServices.ResponseFor | IPS.Services/Implementations/AuthService.cs:205-218 | `GenerateLoginResponse`: the response carries the account's id, username and email, and expires exactly the configured number of minutes after it is issued (never earlier for a non-negative setting) |
| AuthServices.AuthService.constructor | IPS.Services/Implementations/AuthService.cs:38-48 | the service's settings are those `LoadJwtSettings` reads from the configuration, and it starts over a table satisfying the unique indexes |
| AuthServices.AuthService.Register | IPS.Services/Implementations/AuthService.cs:57-96 | a missing request, a taken username (checked first) or email, a blank password and a failed save are each refused with their own error, and the table is left unchanged. On success exactly one active row is appended, holding the salted hash, with the next id. The response carries that row's id, username and email and expires after the configured minutes. Unless another account's email equals the new username, logging in with the new username and password then succeeds. The unique indexes keep holding |
| AuthServices.AuthService.Login | IPS.Services/Implementations/AuthService.cs:104-131 | a missing request is refused. The request is refused with the one credentials message, changing nothing, exactly when the first row matching the username or email is missing, inactive or fails password verification. Otherwise only that row's `UpdatedAt` becomes the clock reading, and the response carries its id, username and email |

## Left out

- JWT creation, signing and validation (`GenerateJwtToken`, and the bodies of `ValidateTokenAsync` and `GetUserIdFromTokenAsync` after the blank check) are library calls. They are parameters (`libraryValidates`, `libraryReadsUserId`), and the `Token` field of the login response is not modelled.
- Asynchrony: each `...Async` method is modelled as the synchronous sequence of its awaited calls. Cancellation tokens are not modelled.
- `decimal` arithmetic is modelled as exact `real` arithmetic. Its 28-digit rounding and its overflow exceptions are not modelled.
- `DateTime` is whole seconds. Sub-second ticks and the range limits of `AddMinutes` are not modelled.
- The random generator, the clock, PBKDF2 and Base64 are parameters. Their cryptographic quality is outside the model.
- PasswordHasher.VerifyPassword: the method's catch-all (any exception gives false) is modelled only for Base64 format errors. PBKDF2 is taken to return the 32 bytes asked for (`DerivesFullKeys`).
- PasswordHasher.HashPassword: the error carries the message given to the exception. The parameter-name suffix .NET appends to `ArgumentException.Message` is not modelled.
- The underlying Entity Framework save is a parameter (`baseResult`). Change acceptance after the save, and the write to the database, are not modelled. In `AuthService`, success appends or updates the row directly.
- AuthServices.AuthService.Register: the row's `CreatedAt`/`UpdatedAt` are the clock readings taken by the service. The save's timestamp pass would overwrite them with later readings, and the model does not compose the two.
- AuthServices.AuthService.Login: the `UpdatedAt` stored is `now`, the service's own reading. The save's later stamping of the modified row is not composed in, for the same reason.
- `GC.SuppressFinalize` and the timing of finalization are runtime behaviour. `Finalize` models only the finalizer's body.
- The ten repository getters are one getter keyed by `EntityKind`. The generic repository (`Repository.cs`) and its queries are not part of this model: a repository is only its kind and its context.
- Null checks on constructor arguments that are non-nullable in the model (the context, the unit of work, the configuration) are not modelled. Nulls for non-nullable strings are not modelled.
- `int.Parse` for the expiry setting is a parameter (`parseInt`).
- The entity configurations other than the Users table's unique indexes, and `OnModelCreating`, are not modelled.
- Navigation properties of the entities (portfolios, assets, watchlists, alerts) are not modelled.
- ApiResponses: the default `Timestamp` (`DateTime.UtcNow`) is a parameter.
- DataContext.StampEntry / DataContext.TimestampPassEffects: the `!= null` guards of the pass are modelled as written, with an absent timestamp skipped. The data-access library's `Property(name)` throws `InvalidOperationException` for a name the entity type does not declare; it never answers null. Transactions and audit log entries have `CreatedAt` but no `UpdatedAt`, and market data cache entries and watchlist items have neither. Saving such an added entity therefore throws in the program, while the model skips the field. That exception is not modelled.
- AuthServices.FirstMatch / AuthServices.AuthService.Login: the lookups run with no ordering, so the database may return the matching rows in any order. `FirstMatch` fixes that order to the table's sequence order, so in the two-match case (`LoginNameCanMatchTwoAccounts`) the program may pick the other row. Username and email comparisons, in the lookups and in the unique indexes, are exact. The database's collation, often case-insensitive, is not modelled.
- UnitOfWorks.TranslateSave: the inner exception the unit of work attaches to its `InvalidOperationException` is dropped; only the message is kept.
