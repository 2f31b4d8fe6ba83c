# Colombo relay ITS: a verified model of the census and accommodation core

The application records the *mumineen* (community members) of a jamaat, the *miqaats*
(gatherings) they attend with their sub-events, and the accommodations booked for members during
a miqaat. A Laravel API owns the tables and the validation rules. A seeder installs roles and
permissions. A Next.js front end shows the census, the miqaat list and the accommodations, and
offers an add-accommodation form. It hides or shows controls from a client-side role table.

The model is written in Dafny and follows the program's structure:

- `Common`, `Text` and `Request` hold shared vocabulary:
  - `Common`: options, responses, filtering and counting;
  - `Text`: ASCII case folding, substrings, number formatting, PHP's integer filter, and
    JavaScript's `parseInt`;
  - `Request`: a request body as a map from field names to JSON-like values, and the Laravel
    rule vocabulary (`required`, `nullable`, `string|max`, `in:`, `date`, `after_or_equal`).
- `Mumineen`, `Accommodation` and `Miqaat` model the controllers' and models' pure logic:
  - lookups, the validation rules as predicates, and fill-from-request;
  - partial updates, the family and head-of-family queries;
  - search, pagination, and the upcoming list.
- `Database` is a class holding all tables. Each controller action that writes is a method.
  - A write commits only when the primary and foreign keys of the migrations still hold. With
    the foreign keys, deleting a member is restricted, and deleting a miqaat cascades to its
    accommodations and sub-events.
  - Otherwise the action answers `Failed` and changes nothing, as the database's rejection
    does.
- `Roles` models `Role::hasPermission` and the seeder. `RoleStore.Run` is the seeder's two
  loops over the permission and role tables, proved against specification functions.
- The front end:
  - `ClientPermissions` models the `ROLES` table with `getUserPermissions` (a method with the
    two nested loops), `hasPermission` and `withPermission`.
  - `CensusPage`, `MiqaatsPage`, `AccommodationsPage` and `AddAccommodationPage` model each page.
    Its computed values are functions. The React state it updates is a class.

Time, the browser store and the results of network requests are parameters. A date is an integer
instant (milliseconds for the front end) and "now" is passed in.

## Model

| member | source | states |
|---|---|---|
| Common.Filter | api/app/Http/Controllers/Api/MumineenController.php:213-216 | the kept rows are exactly the rows of the input that satisfy the condition, in their original order (a subsequence) |
| Mumineen.Find | api/app/Models/Mumineen.php:26-40 | a lookup by the primary key `its_id` finds a row exactly when some row has that key, and the row found has it |
| Mumineen.FindUnique | api/database/migrations/2025_06_09_122338_create_mumins_table.php:15 | with unique keys, looking up a row's key returns that very row |
| Mumineen.HeadOfFamily | api/app/Models/Mumineen.php:61-64 | the `headOfFamily` relation yields a row exactly when `hof_its_id` is set and names a stored member, and that row's key is the link |
| Mumineen.FamilyMembers | api/app/Models/Mumineen.php:69-72 | the `familyMembers` relation holds exactly the rows whose `hof_its_id` is this member's key, in storage order |
| Mumineen.SelfLinkedHofIsOwnFamilyMember | api/app/Models/Mumineen.php:69-72 | a head of family linked to itself appears among its own family members |
| Mumineen.Dependents | api/app/Http/Controllers/Api/MumineenController.php:251 | the rows linked to a head are exactly the stored rows whose `hof_its_id` names it |
| Text.IntegerLiteralOfIntToString | api/app/Http/Controllers/Api/MumineenController.php:64 | the `integer` rule accepts the decimal numeral of an integer exactly when it fits in 64 bits, and reads it back as that integer |
| Text.PaddedLiteral | api/app/Http/Controllers/Api/MumineenController.php:64 | white space around a value does not change whether the `integer` rule accepts it or what it reads |
| Text.IntegerLiteralExamples | api/app/Http/Controllers/Api/MumineenController.php:64 | `+7` reads 7 and `-0` reads 0; `007`, `-007`, `+`, the empty string and `7a` fail |
| Request.IntegerOf | api/app/Http/Controllers/Api/MumineenController.php:64 | the value the rule reads fits in 64 bits, and a JSON integer reads as itself |
| Request.IntegerRuleBooleans | api/app/Http/Controllers/Api/MumineenController.php:64 | `true` passes as 1, `false` fails |
| Request.IntegerRuleSigns | api/app/Http/Controllers/Api/MumineenController.php:141 | `"+7"` passes as 7, `"007"` and `"-007"` fail |
| Request.IntegerRulePadding | api/app/Http/Controllers/Api/MumineenController.php:141 | a numeral padded with a space and a line feed passes |
| Request.BeyondInt64Refused | api/app/Http/Controllers/Api/MumineenController.php:64 | an integer beyond 64 bits fails, as a string or as a number |
| Mumineen.StoreRejections | api/app/Http/Controllers/Api/MumineenController.php:58-67 | a store is rejected when `its_id` is missing or already taken, when `full_name` is missing or over 255 characters, when `gender` is missing or not male/female, or when a non-blank `hof_its_id` names no stored member |
| Mumineen.NewMember | api/app/Models/Mumineen.php:47-56 | each of the eight columns of the created row is read from the request field of the same name: the key and the name as text, the gender as male unless `female`, the age as an integer, the other columns as text or null |
| Mumineen.StoreBuilds | api/app/Http/Controllers/Api/MumineenController.php:58-78 | an accepted store builds the row from the request: a key no row has, a name of at most 255 characters, the gender given, a non-blank head link naming a stored member, the integer age when one is given, mobile and country within their widths, and null for every optional field absent or null |
| Mumineen.NewMemberIgnoresOtherKeys | api/app/Models/Mumineen.php:47-56 | a request field outside the fillable list never changes the created row (mass assignment) |
| Mumineen.ApplyUpdate | api/app/Http/Controllers/Api/MumineenController.php:155 | each fillable field the request carries takes the request's value (text, null, the integer age or the gender given); every field it does not carry keeps its value; a request with no fillable field leaves the row as it was; it fails exactly when a gender or an age could not be stored |
| Mumineen.UpdateIgnoresOtherKeys | api/app/Models/Mumineen.php:47-56 | a request field outside the fillable list never changes what an update writes |
| Mumineen.DeleteRow | api/database/migrations/2025_06_09_122338_create_mumins_table.php:25 | deleting a member removes its key and no other, and no remaining row links to it (`on delete set null`) |
| Mumineen.StoreKeepsKeys | api/app/Http/Controllers/Api/MumineenController.php:56-92 | an accepted store with a head link keeps keys unique and every head link resolving |
| Mumineen.UpdateKeepsKeys | api/app/Http/Controllers/Api/MumineenController.php:124-169 | an accepted update that keeps the key keeps the set of keys, keeps them unique and keeps every head link resolving |
| Mumineen.DeleteRowKeepsOthers | api/database/migrations/2025_06_09_122338_create_mumins_table.php:25 | every other member survives a delete, with its link to the deleted member cleared |
| Mumineen.DeleteRowUnique | api/database/migrations/2025_06_09_122338_create_mumins_table.php:15 | a delete keeps keys unique |
| Mumineen.DeleteRowOrigin | api/database/migrations/2025_06_09_122338_create_mumins_table.php:25 | every row left after a delete is an original row other than the deleted one, at most with its link cleared |
| Mumineen.DeleteRowLinks | api/database/migrations/2025_06_09_122338_create_mumins_table.php:25 | a delete keeps every remaining head link resolving |
| Mumineen.Show | api/app/Http/Controllers/Api/MumineenController.php:100-115 | `show` answers not-found exactly for an unknown key, else the row with that key |
| Mumineen.Hofs | api/app/Http/Controllers/Api/MumineenController.php:209-229 | the heads of family are exactly the rows whose link is missing or points to themselves, in storage order |
| Mumineen.FamilyByHof | api/app/Http/Controllers/Api/MumineenController.php:237-277 | not-found exactly for an unknown head; otherwise the family holds every dependent in order plus the head itself, and nothing else |
| Mumineen.FamilyOnce | api/app/Http/Controllers/Api/MumineenController.php:251-263 | with unique keys the family is exactly the head and its dependents, each listed once |
| Mumineen.HofByIts | api/app/Http/Controllers/Api/MumineenController.php:286-327 | for a known member: the head's id is its link or else itself, the details are the stored head row, and `is_hof` holds exactly when the link is missing or self; an unknown id is not-found |
| Mumineen.HofByItsTotal | api/app/Http/Controllers/Api/MumineenController.php:300-317 | when every link resolves, the lookup fails exactly for an unknown member |
| Mumineen.Search | api/app/Http/Controllers/Api/MumineenController.php:335-355 | a missing or PHP-falsy query is a bad request; otherwise the result is exactly the rows whose id, name or eITS id contains the query ignoring case, in storage order |
| Mumineen.IndexRows | api/app/Http/Controllers/Api/MumineenController.php:27-33 | without a truthy search every row is listed; with one, exactly the matching rows, in order |
| Mumineen.Paginate | api/app/Http/Controllers/Api/MumineenController.php:36 | the page size is the one asked for, 15 when zero; the page number is the one asked for, 1 when missing or below 1; with a positive size the page is the run of that many rows starting after the earlier pages, shorter only at the end of the table, and the page count is the least number of pages of that size covering all rows, never below one; with a negative size every row is on the page and the page count is 1 |
| Mumineen.LastPage | api/app/Http/Controllers/Api/MumineenController.php:43 | the last page covers all rows and no smaller page count does |
| Mumineen.Index | api/app/Http/Controllers/Api/MumineenController.php:19-48 | the answer is the page `Paginate` gives of the filtered rows; the total counts the filtered rows; the page size is 10 unless `per_page` is given, negative sizes included; every listed row is stored and matches the search |
| Accommodation.Find | api/app/Http/Controllers/Api/AccommodationController.php:143 | a lookup by id finds a row exactly when one has that id |
| Accommodation.StoreAcceptedMeans | api/app/Http/Controllers/Api/AccommodationController.php:58-68 | an accepted store names an existing member and miqaat, has name and city of at most 255 and a type of at most 100 characters, and two dates with check-out not before check-in |
| Accommodation.StoreRejections | api/app/Http/Controllers/Api/AccommodationController.php:58-68 | a store with a required field missing, or with check-out before check-in, is rejected |
| Accommodation.NewAccommodation | api/app/Models/Accommodation.php:18-27 | the created row carries the id it is given, and its pincode is the request's text or null |
| Accommodation.StoreBuilds | api/app/Http/Controllers/Api/AccommodationController.php:79 | an accepted request always builds a row carrying its member, miqaat, name, city, pincode, type and dates, with check-in not after check-out |
| Accommodation.NewIgnoresOtherKeys | api/app/Models/Accommodation.php:18-27 | a request field outside the fillable list never changes the created row |
| Accommodation.ApplyUpdate | api/app/Http/Controllers/Api/AccommodationController.php:173 | an update keeps the id; it fails exactly when a fillable value present cannot be stored in its non-null column; without fillable fields the row is unchanged |
| Accommodation.UpdateWrites | api/app/Http/Controllers/Api/AccommodationController.php:173 | each fillable field the request carries takes the request's value, and every other column keeps the row's |
| Accommodation.UpdateIgnoresOtherKeys | api/app/Models/Accommodation.php:18-27 | a field outside the fillable list, such as `room_number`, never changes what an update writes |
| Accommodation.UpdateStorable | api/app/Http/Controllers/Api/AccommodationController.php:152-162 | a validated update with no blank field always yields a storable row |
| Accommodation.Show | api/app/Http/Controllers/Api/AccommodationController.php:101-132 | not-found exactly when no row has the id, else that row, which the controller answers in the enriched form `Listing` gives |
| Accommodation.FamilyIds | api/app/Http/Controllers/Api/AccommodationController.php:242-250 | the ids collected are exactly those of the head and of the members linked to it |
| Accommodation.FamilyIdsAgree | api/app/Http/Controllers/Api/AccommodationController.php:242-250 | those ids are exactly the ids of the family the member controller lists |
| Accommodation.FamilyAccommodations | api/app/Http/Controllers/Api/AccommodationController.php:248-250 | exactly the accommodations booked for one of those ids, in storage order |
| Accommodation.GetByHofIts | api/app/Http/Controllers/Api/AccommodationController.php:228-274 | not-found exactly for an unknown head; otherwise exactly the accommodations of the head and its linked members, which the controller answers in the enriched form `Listing` gives |
| Accommodation.Listing | api/app/Http/Controllers/Api/AccommodationController.php:27-28 | each listed row carries its member's and miqaat's name when they exist, and `Unknown` otherwise |
| Accommodation.Enrich | api/app/Http/Controllers/Api/AccommodationController.php:20-48 | the loop lists every row once, in order, each with its names as `Listing` gives them |
| Miqaat.StatusOf | api/app/Http/Controllers/Api/MiqaatController.php:40 | each status text maps to its own status |
| Miqaat.Find | api/app/Http/Controllers/Api/MiqaatController.php:76 | a lookup by id finds a row exactly when one has that id |
| Miqaat.StoreAcceptedIff | api/app/Http/Controllers/Api/MiqaatController.php:35-41 | a store is accepted exactly when the name is a non-blank string of at most 255 characters, both dates are dates with the end not before the start, the status is one of the four, and the description is missing, null or a string |
| Miqaat.UpdateStatusInEnum | api/app/Http/Controllers/Api/MiqaatController.php:109-115 | an accepted update that carries a status carries one of the four |
| Miqaat.NewMiqaat | api/app/Http/Controllers/Api/MiqaatController.php:52 | the created row carries the id it is given, and its description is the request's text or null |
| Miqaat.StoreBuilds | api/app/Http/Controllers/Api/MiqaatController.php:33-66 | an accepted request builds a row with its name, dates in order, status and description |
| Miqaat.ApplyUpdate | api/app/Http/Controllers/Api/MiqaatController.php:126 | an update keeps the id; each fillable field the request carries takes the request's value and every other keeps the row's; it fails exactly when a name, a date or a status present cannot be stored |
| Miqaat.UpdateIgnoresOtherKeys | api/app/Http/Controllers/Api/MiqaatController.php:126 | a field outside the fillable list never changes what an update writes |
| Miqaat.UpdateMayInvertDates | api/app/Http/Controllers/Api/MiqaatController.php:109-115 | an accepted update carrying only an end date earlier than the stored start date yields a miqaat that ends before it starts |
| Miqaat.InsertByStart | api/app/Http/Controllers/Api/MiqaatController.php:187 | inserting into a list ordered by start date keeps it ordered and adds exactly that miqaat |
| Miqaat.SortByStart | api/app/Http/Controllers/Api/MiqaatController.php:187 | `orderBy('start_date')`: ordered by start date and a permutation of the input |
| Miqaat.UpcomingList | api/app/Http/Controllers/Api/MiqaatController.php:180-194 | the upcoming list is ordered by start date and holds exactly the upcoming-or-still-running miqaats, as often as stored |
| Miqaat.UpcomingMembers | api/app/Http/Controllers/Api/MiqaatController.php:182-188 | a miqaat is listed exactly when stored and either upcoming, or ongoing and not yet ended; completed and cancelled miqaats never are |
| Miqaat.EventsOf | api/app/Http/Controllers/Api/MiqaatController.php:204 | the sub-events of a miqaat are exactly those whose parent it is, in storage order |
| Miqaat.WithEvents | api/app/Http/Controllers/Api/MiqaatController.php:202-217 | not-found exactly for an unknown miqaat; otherwise the miqaat with exactly its own sub-events |
| Miqaat.EventIndex | api/app/Http/Controllers/Api/MiqaatEventController.php:20-37 | not-found exactly for an unknown parent; otherwise exactly its sub-events |
| Miqaat.FindScoped | api/app/Http/Controllers/Api/MiqaatEventController.php:98-115 | a sub-event is found exactly when one has both the id and the parent in the path |
| Miqaat.NoCrossParentAccess | api/app/Http/Controllers/Api/MiqaatEventController.php:98-115 | a sub-event is never reachable through a path naming another miqaat |
| Miqaat.NewSubEvent | api/app/Http/Controllers/Api/MiqaatEventController.php:73-75 | a created sub-event takes its parent from the path, and an accepted request builds one with its name, location, time and description |
| Miqaat.NewSubEventIgnoresBodyParent | api/app/Http/Controllers/Api/MiqaatEventController.php:73-75 | a `miqaat_id` in the body never changes the sub-event created, whether or not the model lists it as fillable |
| Miqaat.ApplyEventUpdate | api/app/Http/Controllers/Api/MiqaatEventController.php:154 | an update keeps the id; each mass-assignable field the request carries takes the request's value and every other keeps the row's; the parent changes only when `miqaat_id` is fillable and carried; it fails exactly when a value present cannot be stored |
| Miqaat.EventUpdateIgnoresOtherKeys | api/app/Http/Controllers/Api/MiqaatEventController.php:154 | a field outside the mass-assignable list never changes what an update writes |
| Miqaat.EventUpdateMayMoveParent | api/app/Http/Controllers/Api/MiqaatEventController.php:138-154 | the update rules accept a body carrying only `miqaat_id`; with it fillable the sub-event moves to that miqaat, without it nothing changes |
| Database.Database.constructor | api/database/migrations/2025_06_09_122445_create_accommodations_table.php:14-26 | empty tables are a valid state, with the given fillable reading of the sub-event model |
| Database.Database.StoreMember | api/app/Http/Controllers/Api/MumineenController.php:56-92 | invalid exactly when validation fails; on success the new row is appended and everything else is unchanged; an accepted store with a head link always succeeds; the state stays valid |
| Database.Database.UpdateMember | api/app/Http/Controllers/Api/MumineenController.php:124-169 | not-found, invalid and success as the controller decides them; on success the row is replaced in place; the state stays valid |
| Database.Database.DestroyMember | api/app/Http/Controllers/Api/MumineenController.php:177-202 | not-found for an unknown member; fails exactly when an accommodation still references the member (foreign key without cascade; the other referencing tables are not modelled); otherwise the member is deleted and links to it are cleared |
| Database.Database.StoreAccommodation | api/app/Http/Controllers/Api/AccommodationController.php:56-93 | invalid exactly when validation fails; on success a row with the next id is appended; an accepted store for a stored member succeeds |
| Database.Database.UpdateAccommodation | api/app/Http/Controllers/Api/AccommodationController.php:141-187 | not-found, invalid and success as the controller decides them; on success the row is replaced under its id |
| Database.Database.DestroyAccommodation | api/app/Http/Controllers/Api/AccommodationController.php:195-220 | not-found exactly for an unknown id; otherwise exactly that row is removed |
| Database.Database.StoreMiqaat | api/app/Http/Controllers/Api/MiqaatController.php:33-66 | invalid exactly when validation fails; otherwise a row with the next id is appended |
| Database.Database.UpdateMiqaat | api/app/Http/Controllers/Api/MiqaatController.php:98-140 | not-found, invalid and success as the controller decides them; on success the row is replaced under its id |
| Database.Database.DestroyMiqaat | api/app/Http/Controllers/Api/MiqaatController.php:148-173 | not-found exactly for an unknown id; otherwise the miqaat, its accommodations and its sub-events are removed (`on delete cascade`) |
| Database.Database.StoreSubEvent | api/app/Http/Controllers/Api/MiqaatEventController.php:46-89 | not-found exactly for an unknown parent; invalid exactly when validation fails; otherwise a sub-event of that parent is appended |
| Database.Database.UpdateSubEvent | api/app/Http/Controllers/Api/MiqaatEventController.php:125-168 | not-found exactly when the parent in the path has no such sub-event; invalid when validation fails; fails exactly when the value cannot be stored or the new parent does not exist; otherwise replaced in place, under the path's parent when `miqaat_id` is not fillable |
| Database.Database.DestroySubEvent | api/app/Http/Controllers/Api/MiqaatEventController.php:177-204 | not-found exactly when the parent in the path has no such sub-event; otherwise exactly that sub-event is removed |
| Database.ReplaceMiqaatKeeps | api/app/Http/Controllers/Api/MiqaatController.php:126 | writing a miqaat back under its id keeps the table's ids and their order |
| Database.CascadeConsistent | api/database/migrations/2025_06_09_122445_create_accommodations_table.php:17 | the cascade delete keeps every foreign and primary key constraint |
| Database.CascadeValid | api/app/Http/Controllers/Api/MiqaatController.php:148-173 | the state left by deleting a miqaat is valid |
| Roles.HasPermissionSlug | api/app/Models/Role.php:23-24 | a slug is granted exactly when some attached permission has it |
| Roles.HasPermissionIn | api/app/Models/Role.php:26 | a collection is granted exactly when one of its permissions shares an id with an attached one |
| Roles.NoPermissionsNoAnswer | api/app/Models/Role.php:21-27 | a role with no attached permission is granted nothing |
| Roles.HasPermissionMonotone | api/app/Models/Role.php:21-27 | attaching more permissions never withdraws a grant |
| Roles.SeedSlugs | api/database/seeders/RolesAndPermissionsSeeder.php:17-31 | the seeded slugs, in order |
| Roles.SeedSlugsDistinct | api/database/seeders/RolesAndPermissionsSeeder.php:17-31 | thirteen permissions are seeded, with distinct slugs |
| Roles.AdminListsAll | api/database/seeders/RolesAndPermissionsSeeder.php:39-49 | the administrator role lists every seeded permission |
| Roles.RoleSlugsSeeded | api/database/seeders/RolesAndPermissionsSeeder.php:38-80 | every slug a role lists is a seeded permission |
| Roles.RoleListsNest | api/database/seeders/RolesAndPermissionsSeeder.php:38-80 | every role lists what the plain user lists, every role may view census, accommodation and miqaat, and only the administrator may delete or manage the system |
| Roles.CreatedPermissions | api/database/seeders/RolesAndPermissionsSeeder.php:33-35 | one permission per entry, with consecutive ids from the next id, in order |
| Roles.RoleRow | api/database/seeders/RolesAndPermissionsSeeder.php:83-86 | the role row takes every field of its entry except the permission list |
| Roles.RoleRows | api/database/seeders/RolesAndPermissionsSeeder.php:82-86 | one role row per entry, with consecutive ids, in order |
| Roles.FirstBySlug | api/database/seeders/RolesAndPermissionsSeeder.php:90 | the lookup finds a permission exactly when one has the slug |
| Roles.AttachMembers | api/database/seeders/RolesAndPermissionsSeeder.php:89-93 | the pairs attached for a role are exactly those pairing it with the permission found for one of its listed slugs |
| Roles.MissingSlugSkipped | api/database/seeders/RolesAndPermissionsSeeder.php:91 | a slug with no permission attaches nothing |
| Roles.AttachAllMembers | api/database/seeders/RolesAndPermissionsSeeder.php:82-95 | a pair is attached exactly when its role was created by the loop and the pair is attached for that role's list |
| Roles.PermissionsOf | api/app/Models/Role.php:21-27 | a role's permissions are exactly those attached to it |
| Roles.CreatedIdsDistinct | api/database/seeders/RolesAndPermissionsSeeder.php:33-35 | created permissions have distinct ids |
| Roles.GrantedIfListed | api/database/seeders/RolesAndPermissionsSeeder.php:82-95 | a role created by the loop is granted every listed slug that exists |
| Roles.ListedIfGranted | api/database/seeders/RolesAndPermissionsSeeder.php:82-95 | with distinct permission ids, such a role is granted only slugs it lists |
| Roles.GrantedIffListed | api/database/seeders/RolesAndPermissionsSeeder.php:82-95 | when every listed slug exists, a role created by the loop is granted a slug exactly when it lists it |
| Roles.SeededRolesHoldListed | api/database/seeders/RolesAndPermissionsSeeder.php:14-96 | after seeding, each seeded role is granted a slug exactly when the seeder lists it for that role |
| Roles.SeededAdminHoldsAll | api/database/seeders/RolesAndPermissionsSeeder.php:39-49 | after seeding, the administrator is granted every seeded permission |
| Roles.SeededRolesNest | api/database/seeders/RolesAndPermissionsSeeder.php:50-79 | after seeding, every role holds what the user role holds, and no role but the administrator may delete or manage the system |
| Roles.RoleStore.constructor | api/database/seeders/RolesAndPermissionsSeeder.php:14 | empty tables with ids starting at one |
| Roles.RoleStore.Run | api/database/seeders/RolesAndPermissionsSeeder.php:14-96 | running the seeder appends exactly the seeded permissions, the seeded roles and their attachments |
| Roles.RoleStore.Seed | api/database/seeders/RolesAndPermissionsSeeder.php:14-96 | the seeder's two phases on any data: the created permissions, then the role rows and attachments against them |
| Roles.RoleStore.CreatePermissions | api/database/seeders/RolesAndPermissionsSeeder.php:33-35 | the loop appends exactly the created permissions and advances the id |
| Roles.RoleStore.CreateRoles | api/database/seeders/RolesAndPermissionsSeeder.php:82-95 | the loop appends exactly the role rows and their attachments |
| Roles.RoleStore.CreateRole | api/database/seeders/RolesAndPermissionsSeeder.php:83-94 | one role row, then the pairs for each listed slug that a permission has |
| ClientPermissions.RolesTable | frontend/src/lib/permissions/types.ts:28-66 | four roles, each filed under its own id; the administrator lists only `admin:all`, and no other role lists it |
| ClientPermissions.RolesNest | frontend/src/lib/permissions/types.ts:28-66 | `user` lists a part of `volunteer`, `volunteer` a part of `manager`, and `user` may edit nothing |
| ClientPermissions.RoleFor | frontend/src/lib/permissions/index.ts:23-32 | every id is assigned a role the table has |
| ClientPermissions.RoleForCases | frontend/src/lib/permissions/index.ts:23-32 | admin exactly for `ADMIN123`; otherwise manager for the `MGR` prefix, volunteer for the `VOL` prefix, user for anything else |
| ClientPermissions.AddAllMeans | frontend/src/lib/permissions/index.ts:41-43 | adding elements to a set keeps it free of repetition and holds exactly the old and the new elements |
| ClientPermissions.UnionMeans | frontend/src/lib/permissions/index.ts:35-45 | the union holds each permission of an assigned role exactly once, and nothing else |
| ClientPermissions.ComputedMeans | frontend/src/lib/permissions/index.ts:47-52 | exactly one role; its permissions without repetition; administrator exactly for `ADMIN123` |
| ClientPermissions.GetUserPermissions | frontend/src/lib/permissions/index.ts:7-52 | nothing outside a browser or without a non-empty stored id; otherwise the record the two loops compute for that id |
| ClientPermissions.HasPermission | frontend/src/lib/permissions/index.ts:60-73 | false without a user; true for an administrator or a holder of `admin:all`; otherwise whether the list holds the permission |
| ClientPermissions.HasPermissionFor | frontend/src/lib/permissions/index.ts:60-73 | for a stored id, `hasPermission` holds exactly for the administrator or a permission of the user's role |
| ClientPermissions.WithPermission | frontend/src/lib/permissions/index.ts:93-96 | true exactly when `hasPermission` holds for some required permission; false for an empty list |
| CensusPage.HeadLabelAgrees | frontend/src/app/census/page.tsx:148 | the page labels a row head of family exactly when the server lists it among the heads of family |
| CensusPage.AllPages | frontend/src/app/census/page.tsx:194 | one button per page, numbered from one |
| CensusPage.SmallWindow | frontend/src/app/census/page.tsx:192-202 | up to five pages, every page has exactly one button |
| CensusPage.LargeWindow | frontend/src/app/census/page.tsx:206-233 | over five pages, the buttons are exactly the first, the last, the current page and its neighbours; an ellipsis shows exactly when pages are hidden before or after them |
| CensusPage.PagesAppend | frontend/src/app/census/page.tsx:192-236 | the page numbers of joined controls are those of each part, joined |
| CensusPage.AllPagesNumbers | frontend/src/app/census/page.tsx:194 | the small window shows the pages 1 to total |
| CensusPage.LargePages | frontend/src/app/census/page.tsx:206-233 | the large window's page numbers, each with its display condition, in order |
| CensusPage.LargePagesIncreasing | frontend/src/app/census/page.tsx:206-233 | those numbers strictly increase |
| CensusPage.WindowIncreasing | frontend/src/app/census/page.tsx:192-236 | the page numbers shown strictly increase, so no page shows twice |
| CensusPage.PageCount | frontend/src/app/census/page.tsx:52 | a missing or zero page count counts as one page |
| CensusPage.CensusPager.constructor | frontend/src/app/census/page.tsx:72-76 | the pager starts on page 1 of 1 |
| CensusPage.CensusPager.GoToPage | frontend/src/app/census/page.tsx:72-76 | a page within range is taken and any other is ignored, so the pager stays in range |
| CensusPage.CensusPager.HandleSearch | frontend/src/app/census/page.tsx:80-84 | a search returns to page 1 and fetches page 1 |
| CensusPage.CensusPager.ReceivePage | frontend/src/app/census/page.tsx:49-53 | a successful answer with a list sets the page count; any other keeps it |
| CensusPage.NavigationStaysInRange | frontend/src/app/census/page.tsx:185-241 | Previous and Next lead to a page in range exactly when their button is enabled |
| MiqaatsPage.StatusAt | frontend/src/app/miqaats/page.tsx:52-54 | completed exactly for a valid end date before now; an invalid date stays upcoming |
| MiqaatsPage.Format | frontend/src/app/miqaats/page.tsx:50-66 | the status comes from the end date; missing events become an empty list; a missing registration count becomes zero and a given one is kept; id, name, dates, description and location are kept |
| MiqaatsPage.StoredStatusDiscarded | frontend/src/app/miqaats/page.tsx:59-61 | the stored status plays no part in what is shown |
| MiqaatsPage.FormatAll | frontend/src/app/miqaats/page.tsx:50 | every fetched miqaat is formatted, in order |
| MiqaatsPage.Partition | frontend/src/app/miqaats/page.tsx:86-87 | the upcoming and past lists split the list: each miqaat lands in exactly one, as often as it occurs |
| MiqaatsPage.FormatDateRange | frontend/src/app/miqaats/page.tsx:90-107 | one date exactly when the raw date strings are equal, else the range from start to end |
| MiqaatsPage.EventPreview | frontend/src/app/miqaats/page.tsx:187-205 | at most the first two events; the `more` count is shown exactly when there are over two and, with the preview, accounts for every event |
| AccommodationsPage.FilterAccommodations | frontend/src/app/accommodations/page.tsx:120-142 | exactly the rows, in order, that pass the miqaat filter, the type filter and the case-insensitive search; a miqaat filter that is not a number keeps nothing |
| AccommodationsPage.NoFilterKeepsAll | frontend/src/app/accommodations/page.tsx:120-142 | with no filter every row is kept |
| AccommodationsPage.FilterHofs | frontend/src/app/accommodations/page.tsx:145-153 | an empty query keeps the list; otherwise exactly the heads whose id, full name or name contains the query ignoring case, in order |
| AccommodationsPage.AccommodationTypes | frontend/src/app/accommodations/page.tsx:211 | each type occurring in the rows, once |
| AccommodationsPage.Toggled | frontend/src/app/accommodations/page.tsx:71-83 | the toggled head flips its membership; every other head keeps it |
| AccommodationsPage.ToggleTwice | frontend/src/app/accommodations/page.tsx:70-84 | toggling twice restores the set |
| AccommodationsPage.HofFor | frontend/src/app/accommodations/page.tsx:96-100 | the first listed head with the id, else `Unknown` |
| AccommodationsPage.AccommodationsView.constructor | frontend/src/app/accommodations/page.tsx:70-117 | nothing expanded and no family loaded |
| AccommodationsPage.AccommodationsView.ToggleFamilyExpansion | frontend/src/app/accommodations/page.tsx:70-84 | the head's expansion flips; its family is loaded exactly when it is being opened and was not loaded before |
| AccommodationsPage.AccommodationsView.LoadFamilyDetails | frontend/src/app/accommodations/page.tsx:87-117 | a successful family answer files the head, its family and its accommodations (none on a failed answer) under its id; a failed one changes nothing |
| AddAccommodationPage.InitialFormDefaults | frontend/src/app/accommodations/add/page.tsx:102-113 | every field starts empty except the city and the pincode |
| AddAccommodationPage.FirstActive | frontend/src/app/accommodations/add/page.tsx:159-163 | the first miqaat in list order running now, and none exactly when no miqaat runs now |
| AddAccommodationPage.SelectMiqaat | frontend/src/app/accommodations/add/page.tsx:166 | the active miqaat, else the first one; nothing exactly when the list is empty |
| AddAccommodationPage.WithMiqaat | frontend/src/app/accommodations/add/page.tsx:169-174 | the form takes the miqaat's id and its two dates and keeps every other field |
| AddAccommodationPage.FindById | frontend/src/app/accommodations/add/page.tsx:195 | a listed miqaat with the parsed id, none for a value that is not a number |
| AddAccommodationPage.Changed | frontend/src/app/accommodations/add/page.tsx:186-205 | the named field takes the value; only a miqaat choice touches the dates |
| AddAccommodationPage.ChangedSyncsDates | frontend/src/app/accommodations/add/page.tsx:194-203 | choosing a listed miqaat by its id copies its dates |
| AddAccommodationPage.ChangedUnknownId | frontend/src/app/accommodations/add/page.tsx:194-203 | choosing an id no miqaat has changes the id field alone |
| AddAccommodationPage.FirstMatch | frontend/src/app/accommodations/add/page.tsx:72-75 | the first entry whose id equals the input ignoring case, none exactly when no entry does |
| AddAccommodationPage.AddAccommodationForm.constructor | frontend/src/app/accommodations/add/page.tsx:102-113 | the form starts with its defaults and empty lists |
| AddAccommodationPage.AddAccommodationForm.InstallMockMumineen | frontend/src/app/accommodations/add/page.tsx:182 | the local member list becomes the fixed list |
| AddAccommodationPage.AddAccommodationForm.FetchMiqaats | frontend/src/app/accommodations/add/page.tsx:140-179 | a thrown or empty answer installs the fixed list and leaves the form unchanged; otherwise the list is installed and the form takes the selected miqaat |
| AddAccommodationPage.AddAccommodationForm.HandleChange | frontend/src/app/accommodations/add/page.tsx:186-205 | the form becomes what `Changed` gives |
| AddAccommodationPage.AddAccommodationForm.FetchMumineenData | frontend/src/app/accommodations/add/page.tsx:50-99 | an empty id does nothing; otherwise the id is written, then the found record's id and name, else the first local match, else nothing more |
| Text.ParseIntOfIntToString | frontend/src/app/accommodations/add/page.tsx:171 | `parseInt` reads back every id that `toString` writes |
| Text.ParseMagnitudeDecimal | frontend/src/app/accommodations/add/page.tsx:195 | without a `0x` prefix, `parseInt` reads NaN exactly when no digit comes first, and otherwise the value of the digit run at the start that cannot be extended |
| Text.ParseMagnitudeHex | frontend/src/app/accommodations/add/page.tsx:195 | after a `0x` or `0X` prefix, NaN exactly when no hexadecimal digit follows, and otherwise the base-sixteen value of the hexadecimal run that cannot be extended |
| Text.SkipSpacesRun | frontend/src/app/accommodations/add/page.tsx:195 | the leading JavaScript white space, and nothing after it, is skipped |
| Text.ParseIntReads | frontend/src/app/accommodations/add/page.tsx:195 | after the leading white space and an optional sign, the magnitude of the rest is read and negated after a `-` |
| Text.ParseIntHex | frontend/src/app/accommodations/add/page.tsx:195 | `parseInt` without a radix reads `" 0x1A"` as 26 |
| Text.ParseIntStopsAtNonDigit | frontend/src/app/accommodations/page.tsx:123 | `parseInt("12px")` is 12 |
| Text.ParseIntNaN | frontend/src/app/accommodations/page.tsx:123 | `"0x"`, the empty string and `all` read as NaN |

## Left out

- Laravel's default global middleware `TrimStrings` and `ConvertEmptyStringsToNull` is assumed off: the application bootstrap is not part of this model. A request reaches validation as sent, so a blank string stays a blank string. With the middleware on, a blank `hof_its_id` would be stored as null (the model answers `Failed`, because the foreign key sees the blank key), blank optional fields of an update would become null, and padded ids would be trimmed.
- HTTP and JSON plumbing, routing and the other middleware are not modelled. That covers status codes, the `status` and `message` envelope, and logging. A request is a map of field values; an answer is a `Response` value.
- Thrown exceptions of the controllers are the `Failed` answer of the write that caused them. A foreign-key violation is the only cause modelled.
- SQL `LIKE` is modelled as a substring test with ASCII case folding. Collations and wildcard characters inside the query are not modelled.
- JavaScript `toLowerCase` is modelled as ASCII case folding.
- JavaScript `parseInt` is modelled with its white space, its sign, its `0x` prefix and its decimal and hexadecimal digits; the numeric value of very long digit runs, which JavaScript rounds to a double, is exact in the model.
- Multibyte length: `max` counts characters of `seq<char>`.
- Column widths beyond the validation rules and the timestamps are not modelled. Of the database's own type checks, the model keeps those that decide whether a row can be written at all: the gender enum and the integer age of a member (`Mumineen.Unstorable`), the non-null text, id and date columns of accommodations, miqaats and sub-events, and the status enum of miqaats, whose migration is not part of this model and is assumed to match the validation's four values.
- `Request.IsIntegerValue`: a JSON float with an integral value (`7.0`) reaches PHP as a float, which the integer filter writes as `7` and accepts; the model has no floats and refuses it. The database is assumed to store, for every value the rule accepts, the integer the filter reads; the 32-bit range of the `age` column is not modelled.
- `Request.AsId`: a boolean, or a numeral with white space or a sign, compared with an id names no id in the model. The database would convert it.
- Dates are integer instants. Validation sees a parsed date or a non-date; calendar arithmetic and time zones are not modelled.
- The clock is the `now` parameter.
- Locale formatting of dates is not modelled. `MiqaatsPage.FormatDateRange` returns the strings it would format.
- `exists:` rules that read other tables are the parameter `inMumineens` in the accommodation rules. The rules name a table the migration does not create, so their outcome is not derivable from the model's tables.
- The model of the sub-event table is not part of the source shown. Its fillable list is assumed to hold the four content columns, and whether it also holds `miqaat_id` is the `parentFillable` parameter of the `Database` class; its `on delete cascade` to the parent miqaat is assumed.
- `Miqaat.ApplyEventUpdate`: when `miqaat_id` is fillable, as in every other child model of the application, `$event->update($request->all())` can move a sub-event to another miqaat, because the update rules do not check the field (`Miqaat.EventUpdateMayMoveParent`). The model keeps that behaviour; "an update keeps the parent" holds only with `parentFillable` false, and a move to a miqaat that does not exist fails on the parent key.
- `Database.Database.DestroyMember`: `arrival_scans` and `waaz_center_preferences` also reference the member table without an on-delete action, so a member named there cannot be deleted either. Those tables are not modelled, and the contract names only the accommodations.
- `MiqaatController::index` returns the table unchanged. It has no member of its own.
- The other tables and relations are not part of this model: registrations, arrival scans, waaz centres and the user-role link.
- React rendering, effects and the order in which asynchronous answers arrive are not modelled. Each state update is one method call.
  - `fetchMumineenData` reads the member list captured when it was created.
  - The model reads the list held when the call is made.
- The browser store is the `stored` parameter of `GetUserPermissions`. The ITS id read by the add page's effect is the `itsId` parameter of `FetchMumineenData`.
- The network answers are parameters:
  - `found` and `family` are `Option`s;
  - `MiqaatAnswer` is the miqaat fetch. JavaScript treats an empty array as a successful answer; with an empty list the selection throws, and the handler installs the fixed list.
- Concurrent requests are not modelled.
- Tables are sequences of rows in storage order, since listing order matters. They are not maps.
- `Miqaat.ApplyUpdate`: an accepted update may leave a miqaat that ends before it starts. `after_or_equal` compares against the request only, as `Miqaat.UpdateMayInvertDates` shows. The model keeps that behaviour, so `end >= start` is not an invariant of the stored table.
- `Accommodation.ApplyUpdate`: the same holds for check-in and check-out dates.
- `Mumineen.Index`: the `per_page` value arrives already read as an integer, negative or not. The route's string handling (a numeric string, a non-numeric one) is not modelled.
