# Customs back office: service-layer model

This project models the service layer of a customs-brokerage back office
(`curs4`). It covers four things:

- User registration with role-dependent checks.
- The customs-declaration lifecycle.
- The vehicle registry with its global licence-plate uniqueness.
- The two field-copying mappers for vehicles and activities.

The relational store is one `Stores.Store` object. It holds one map per table (users, vehicles,
declarations), the set of UNP values in the reference table, and one identity counter per table.
Every service operation is a method over that store. It either returns a domain error and leaves
the store unchanged, or performs one stated update. `Store.Valid()` is the set of constraints
every operation keeps:

- usernames are unique;
- a UNP is bound to at most one user;
- licence plates are unique and present;
- a stored vehicle's id is its key;
- every key is below its table's identity counter.

Modules:

- `Common`: nullable values (`Option`), the domain errors (one per exception message), `Result`/`Outcome`, and `String.trim()` with the services' blank test.
- `Entities`: the DTOs and entities as datatypes. Java's nullable fields are `Option`s. A vehicle's or activity's owner is the owner's id.
- `Stores`: the store class, the repository existence and count queries, and the uniqueness constraints.
- `UserService`, `DeclarationService`, `VehicleService`: the services.
- `DeclarationNumbers`: the `"TD-" + year + "-" + %05d(count + 1)` number format and the proof that its serial part reads back as `count + 1`.
- `VehicleMapper`, `ActivityMapper`: the mappers, with round-trip lemmas in both directions.

Two collaborators are opaque, so they are passed in as function parameters. `verifyUnp` stands for
`VerificationService.verifyUNP` and `encode` for the password encoder. The clock reading and the
calendar year are also parameters.

The user entity and `UserMapper` are not part of this model. `Register` assumes that
`UserMapper.toEntity` copies username, role, name, email and activity type. The service sets the
password, the verification flag and the UNP itself. The declaration entity and `DeclarationMapper`
are not part of this model either. `CreateDeclaration` assumes the mapper copies the nine shipment
fields. The status a new declaration starts with is the `initialStatus` parameter, so the model
does not assume it is PENDING.

What the proofs show beyond the single operations:

- A successful CLIENT registration is always `verified`. The flag is set from `verifyUnp`, which
  `validateUser` has already required to hold.
- `updateDeclarationStatus` has no guard. An APPROVED or REJECTED declaration can be moved back to
  PENDING and then edited or deleted again.
- Declaration numbers come from the row count, so the generator can reissue a number that is still
  in use (`NumberReissuedAfterDelete`). Take the newest declaration, numbered from the table size
  less one, with no delete since it was created. Delete any other declaration. The next create in
  the same year then computes the newest one's number, and that declaration is still stored.
  Whether that insert then fails depends on how the Declaration entity maps the number column.
  That entity is not part of this model.
- `updateDeclaration` re-validates nothing. It can store a null or negative product value, which
  `createDeclaration` refuses.
- `updateUser` applies no role rule. It can give a DRIVER a company name, which registration
  refuses.

## Model

| member | source | states |
|---|---|---|
| `Stores.Store.Valid` | curs4/src/main/java/com/example/curs4/entity/Vehicle.java:15-20 | the table constraints every operation keeps: unique and present licence plates, a vehicle's id equal to its key, unique usernames, each UNP bound to at most one user, keys below the identity counters; every service method requires and ensures it |
| `UserService.Register` | curs4/src/main/java/com/example/curs4/service/UserService.java:35-63 | fails exactly when the admin check or `validateUser` fails, with that error, and the store is unchanged; otherwise adds one user under a fresh id and leaves every other user as it was; the new user has the submitted username, role and email, the encoded password, and is verified; a client is bound to its UNP and keeps its name and activity type; a driver's name, UNP and activity type are cleared; username and UNP uniqueness are kept |
| `UserService.RegistrationError` | curs4/src/main/java/com/example/curs4/service/UserService.java:38-42 | a registration that passes the guard is not ADMIN and uses a username not in the store |
| `UserService.AdminRefusedFirst` | curs4/src/main/java/com/example/curs4/service/UserService.java:38-40 | role ADMIN is refused with the admin error whatever the store and the other fields hold |
| `UserService.NewUser` | curs4/src/main/java/com/example/curs4/service/UserService.java:44-59 | the stored user has the request's username, role and email and the encoded password, and is verified; a client is bound to its UNP and keeps its name and activity type; a driver's name, UNP and activity type are cleared |
| `UserService.ValidateUser` | curs4/src/main/java/com/example/curs4/service/UserService.java:137-169 | passes exactly when the username is free, a client has a non-blank UNP that the verifier accepts, that is in the reference table and bound to no user, plus a non-blank company name, and a driver has a blank name |
| `UserService.DuplicateUsernameRefused` | curs4/src/main/java/com/example/curs4/service/UserService.java:138-140 | any non-admin request with a username already in the store is refused as a duplicate username |
| `UserService.SecondRegistrationRefused` | curs4/src/main/java/com/example/curs4/service/UserService.java:138-140 | once a user with some username is stored, any later registration of that username is refused |
| `UserService.ClientChecksInOrder` | curs4/src/main/java/com/example/curs4/service/UserService.java:142-164 | for a client with a free username the first failing check decides the error, in this order: blank UNP, UNP rejected by the verifier, UNP not in the reference table, UNP already bound, blank company name |
| `UserService.DriverWithCompanyNameRefused` | curs4/src/main/java/com/example/curs4/service/UserService.java:166-168 | a driver with a free username and a non-blank name is refused |
| `Stores.InsertUserKeepsUniqueness` | curs4/src/main/java/com/example/curs4/service/UserService.java:157-159 | storing a user with a free username and an unbound UNP under a fresh id keeps usernames unique and each UNP bound at most once |
| `UserService.UpdateUser` | curs4/src/main/java/com/example/curs4/service/UserService.java:110-127 | an unknown id fails and changes nothing; otherwise only that user changes, and each of email, name and activity type takes the supplied value when it is non-null; username, password, role, UNP and verified flag stay |
| `UserService.DeleteUser` | curs4/src/main/java/com/example/curs4/service/UserService.java:130-134 | an unknown id fails and changes nothing; otherwise the user table loses exactly that id |
| `UserService.ExistsByUsername` | curs4/src/main/java/com/example/curs4/service/UserService.java:172-174 | true exactly when the username is among the stored users' usernames |
| `Common.BlankMeansTrimmedEmpty` | curs4/src/main/java/com/example/curs4/service/UserService.java:145 | the blank test the services use (null, or every character at most U+0020) holds exactly when the value is null or `trim()` leaves it empty |
| `DeclarationService.ValidateDeclaration` | curs4/src/main/java/com/example/curs4/service/DeclarationService.java:144-160 | passes exactly when the request has a client id, a non-blank declaration type, a non-blank product description and a non-null, non-negative product value |
| `DeclarationService.DeclarationChecksInOrder` | curs4/src/main/java/com/example/curs4/service/DeclarationService.java:144-160 | the first failing check decides the error: client id, then type, then description, then product value |
| `DeclarationService.CreateDeclaration` | curs4/src/main/java/com/example/curs4/service/DeclarationService.java:31-53 | fails with the validation error, else with client-not-found for an unknown client, and the store is unchanged; otherwise adds one declaration for that client under a fresh id; its number is made from the row count before the insert and the year; it is stamped with the submission time; a null net weight or quantity becomes zero and the other shipment fields are the request's |
| `DeclarationNumbers.DeclarationNumber` | curs4/src/main/java/com/example/curs4/service/DeclarationService.java:163-166 | the number for a row count and a year is "TD-", the year, "-" and `%05d` of count + 1; its contract is stated and proved by `DeclarationNumberFormat`, `Serial` and `YearText` |
| `DeclarationNumbers.DeclarationNumberFormat` | curs4/src/main/java/com/example/curs4/service/DeclarationService.java:163-166 | the number is "TD-", the year, "-", then at least five decimal digits that read back as the row count plus one |
| `DeclarationService.NewDeclaration` | curs4/src/main/java/com/example/curs4/service/DeclarationService.java:39-47 | the stored declaration belongs to the given client, carries the given number, submission time and status and no review time; a null net weight or quantity becomes zero, and the other shipment fields are the request's |
| `DeclarationNumbers.Serial` | curs4/src/main/java/com/example/curs4/service/DeclarationService.java:165 | `%05d` of n gives digits that read back as n, at least five of them, never truncated, with a leading zero only as padding |
| `DeclarationNumbers.YearText` | curs4/src/main/java/com/example/curs4/service/DeclarationService.java:165 | the year prints as digits that read back as the year, after a minus sign when it is negative |
| `DeclarationNumbers.DecimalDigitsValue` | curs4/src/main/java/com/example/curs4/service/DeclarationService.java:165 | the decimal digits of n read back as n |
| `DeclarationNumbers.LeadingZerosValue` | curs4/src/main/java/com/example/curs4/service/DeclarationService.java:165 | zero padding does not change the value a digit string denotes |
| `DeclarationNumbers.DeclarationNumberInjective` | curs4/src/main/java/com/example/curs4/service/DeclarationService.java:163-166 | within one year, equal numbers come from equal row counts |
| `DeclarationService.NumberReissuedAfterDelete` | curs4/src/main/java/com/example/curs4/service/DeclarationService.java:163-166 | for a stored declaration numbered in some year from the table size less one, deleting any other declaration makes the next number computed in that year equal to its number, while it stays stored |
| `DeclarationService.UpdateDeclaration` | curs4/src/main/java/com/example/curs4/service/DeclarationService.java:85-109 | succeeds exactly when the declaration exists and its status is exactly "PENDING"; otherwise it fails with not-found or not-editable and nothing changes; on success the shipment fields become the request's and number, status, client and times stay |
| `DeclarationService.UpdateDeclarationStatus` | curs4/src/main/java/com/example/curs4/service/DeclarationService.java:112-127 | succeeds for every existing declaration whatever its current status; the status becomes the requested one; the review time is set to now exactly when the new status is APPROVED or REJECTED and is otherwise kept; nothing else changes |
| `DeclarationService.DeleteDeclaration` | curs4/src/main/java/com/example/curs4/service/DeclarationService.java:130-141 | succeeds exactly when the declaration exists and is PENDING, and then removes exactly that id; otherwise it fails with not-found or not-deletable and nothing changes |
| `DeclarationService.GetDeclarationsCountByClient` | curs4/src/main/java/com/example/curs4/service/DeclarationService.java:173-178 | fails exactly for an unknown client; otherwise returns the number of declarations owned by that client |
| `DeclarationService.GetDeclarationsCountByClientAndStatus` | curs4/src/main/java/com/example/curs4/service/DeclarationService.java:180-185 | fails exactly for an unknown client; otherwise returns the number of that client's declarations whose status is the given one, which is never more than that client's total |
| `DeclarationService.CountAfterCreate` | curs4/src/main/java/com/example/curs4/service/DeclarationService.java:36-49 | storing a declaration under a fresh id adds one to its client's count and leaves every other client's count alone |
| `DeclarationService.CountAfterStatusChange` | curs4/src/main/java/com/example/curs4/service/DeclarationService.java:116-122 | a status change leaves every client's declaration count alone |
| `VehicleService.ValidateVehicle` | curs4/src/main/java/com/example/curs4/service/VehicleService.java:121-129 | passes exactly when the request has a client id and a non-blank plate; a missing client id is reported first |
| `VehicleService.CreateVehicleError` | curs4/src/main/java/com/example/curs4/service/VehicleService.java:32-40 | creation may proceed exactly when validation passes, no stored vehicle has the plate, and the client exists |
| `VehicleService.CreateChecksInOrder` | curs4/src/main/java/com/example/curs4/service/VehicleService.java:32-40 | the first failing check decides the error: validation first, then plate uniqueness, then the client lookup |
| `VehicleService.CreateVehicle` | curs4/src/main/java/com/example/curs4/service/VehicleService.java:29-49 | fails with the first failing check and changes nothing; otherwise adds exactly one vehicle under a fresh id, owned by the requested client, with the request's plate, model, type, year and capacity and no creation time; afterwards the plate exists, and plates stay unique |
| `VehicleService.InsertKeepsPlatesUnique` | curs4/src/main/java/com/example/curs4/service/VehicleService.java:34-45 | storing a vehicle whose plate no vehicle holds, under a fresh id, keeps plates unique |
| `VehicleService.UpdateVehicle` | curs4/src/main/java/com/example/curs4/service/VehicleService.java:88-109 | succeeds exactly when the vehicle exists and either keeps its own plate or moves to a plate no vehicle holds; otherwise it fails with not-found or plate-taken and nothing changes; on success plate, model, type, year and capacity are the request's; id, owner and creation time stay, and no other vehicle changes |
| `VehicleService.ReplateKeepsPlatesUnique` | curs4/src/main/java/com/example/curs4/service/VehicleService.java:92-103 | giving a stored vehicle its own plate or a plate no vehicle holds keeps plates unique |
| `VehicleService.DeleteVehicle` | curs4/src/main/java/com/example/curs4/service/VehicleService.java:112-118 | an unknown id fails and changes nothing; otherwise the vehicle table loses exactly that id |
| `VehicleService.LicensePlateExists` | curs4/src/main/java/com/example/curs4/service/VehicleService.java:159-162 | true exactly when some stored vehicle has the plate; in a valid store that vehicle is the only one |
| `VehicleService.GetVehiclesCountByClient` | curs4/src/main/java/com/example/curs4/service/VehicleService.java:133-137 | fails exactly for an unknown client; otherwise returns the number of vehicles that client owns |
| `VehicleService.CountAfterCreate` | curs4/src/main/java/com/example/curs4/service/VehicleService.java:42-45 | storing a vehicle under a fresh id adds one to its owner's count and leaves every other client's count alone |
| `VehicleService.CountAfterDelete` | curs4/src/main/java/com/example/curs4/service/VehicleService.java:112-117 | deleting a vehicle takes one off its owner's count and leaves every other client's count alone |
| `VehicleService.CountAfterUpdate` | curs4/src/main/java/com/example/curs4/service/VehicleService.java:99-103 | an update that keeps the owner changes no client's vehicle count |
| `VehicleMapper.ToDto` | curs4/src/main/java/com/example/curs4/mapper/VehicleMapper.java:10-27 | null maps to null; otherwise the six attributes and the creation time are copied, the client id and name are the owner's, and the update time is unset |
| `VehicleMapper.ToEntity` | curs4/src/main/java/com/example/curs4/mapper/VehicleMapper.java:29-42 | null maps to null; otherwise the six attributes are copied and the client and creation time are unset |
| `VehicleMapper.DtoRoundTrip` | curs4/src/main/java/com/example/curs4/mapper/VehicleMapper.java:15-41 | DTO to entity and back, with a client attached, keeps id, plate, model, type, year and capacity, and reports the attached client's id and name |
| `VehicleMapper.EntityRoundTrip` | curs4/src/main/java/com/example/curs4/mapper/VehicleMapper.java:15-41 | entity to DTO and back loses only the client and the creation time |
| `ActivityMapper.ToDto` | curs4/src/main/java/com/example/curs4/mapper/ActivityMapper.java:10-24 | null maps to null; otherwise id, description and date are copied and the user id and name are the owner's |
| `ActivityMapper.ToEntity` | curs4/src/main/java/com/example/curs4/mapper/ActivityMapper.java:26-36 | null maps to null; otherwise id and description are copied, the user is unset, and the date is the supplied one or the current time when none is supplied |
| `ActivityMapper.DtoRoundTrip` | curs4/src/main/java/com/example/curs4/mapper/ActivityMapper.java:15-35 | DTO to entity and back, with a user attached, keeps id and description, reports that user, and carries the supplied date or the current time |
| `ActivityMapper.EntityRoundTrip` | curs4/src/main/java/com/example/curs4/mapper/ActivityMapper.java:15-35 | entity to DTO and back loses only the user when the entity has a date, whatever the clock says |

## Left out

- HTTP controllers, status codes and exception-to-response handlers: transport only. A thrown domain exception is a `Failure`/`Fail` value.
- Transactions: a failed operation leaves the store unchanged, and that stands in for the rollback. Concurrency, including the `count() + 1` race between concurrent writers, is not modelled.
- The controllers' `@NotBlank`/`@NotNull` checks: role, username and password are non-null by type. `UpdateVehicle` requires a non-blank plate. Username and password are not required to be non-blank, because no property depends on it.
- `verifyUNP` is opaque: it is a parameter, not a 9-digit check. Password hashing is the opaque `encode` parameter.
- `UserMapper` and `DeclarationMapper` are not part of this model, and neither are the User, Declaration and Unp entities. Services return the new id or a pass/fail outcome instead of the mapped DTO.
- Read-only listings and lookups: `getUserById`, `getAllUsers` with and without pagination, `findByUsername`, `getUsersByRole`, `existsByEmail`, the declaration and vehicle getters and lists, `declarationExists`, `vehicleExists`. Each is a plain repository read with no logic.
- `getTrucksCountByClient` and `getTotalCapacityByClient`: they use repository queries that are not part of this model, and the total is a floating-point sum.
- Vehicle capacity (`Double`) and declaration amounts (`BigDecimal`) are `real`s. They are only copied and compared with zero, so no rounding is modelled.
- Logging and the JPA auditing bean.
- `CreateVehicle`: a request carrying an id is always stored as a new vehicle under a fresh id. JPA's merge-on-save for an id that is already present is not modelled.
- `DeleteUser`: it removes only the user. Cascades to that user's vehicles and declarations depend on the User entity's mapping, which is not part of this model. So the store keeps no referential-integrity constraint.
- Entities are values: the setter chains on a fetched entity become successive updates of a local record that is then written back. Managed-entity identity and aliasing are not modelled.
