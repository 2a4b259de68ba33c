# wm_store_backend in Dafny

A model of the store back office served by the Laravel application
wm_store_backend. It covers agencies, sales users, customers and their phone
numbers, operators, sales types, typifications, sales, and customer records
(the calls planned to a customer). It also covers registration, login and
logout over the `users` table and its API tokens.

The database is one `Db` value: one table per migration, each a map from
primary key to an attribute map (an Eloquent attribute bag), plus each
table's own auto-increment counter (every migration declares `id()`), so
keys 1, 2, 3, ... are handed out per table. `Consistent(db)` (module
`Schema`) gathers:

- what the three migrations declare: restricting foreign keys, unique `phone`, `imei` and `sales_order`, column sizes, nullability;
- the uniqueness the controllers keep by validation: operator and sales-user names, agency and user emails, record phones.

Each controller action is a function from the database and the request to
a `Reply(status, db)`. Its steps follow the controller's own order:
lookup, validation, allow-list filter, `array_filter`, insert or update,
then the database's own refusal of a row that breaks a constraint.

Every exception a `catch (\Exception)` block turns into 500 is a 500 in the
model. This includes Laravel's `ValidationException`, so a failed validation
answers 500 everywhere except register (400).

`Api.Store` is the mutable database the controllers share. It is a class
with a `db` field and one method per writing action. Each method takes the
action's steps in place and ensures that its answer and the new tables are
exactly those of the action's function. It also keeps `Valid()`, the
consistency invariant. Show and index change nothing and stay functions.

Modules:

| module | what it holds |
|---|---|
| Values | request values, PHP casts and loose comparisons, `array_filter`, the `$fillable` allow-list filter |
| Schema | rows, tables, the `Db` snapshot, the migrations' constraints, relations |
| Rules | Laravel's validation rules used here, and one rule set per action |
| Query | `where(...)->first()`, listings in id order, `paginate`, `orderBy('name')` |
| Agencies, Customers, Phones, Operators, SalesTypes, SalesUsers, Typifications, Sales, Records | one module per controller: its actions and their lemmas |
| Auth | RegisterController: users, tokens, register, login, logout, user |
| Api | the `Store` class |

Hashing and token minting are parameters: `hash` is any function from
password to stored hash, and a new token takes the tokens table's next key. The
authenticated user is the optional bearer token a request carries.

## Model

| member | source | states |
|---|---|---|
| Values.NatToDecimal | app/Http/Controllers/CustomerController.php:167 | an integer column printed as text is a non-empty digit string without leading zeros |
| Values.DecimalRoundTrip | app/Http/Controllers/CustomerController.php:167 | reading back the decimal text of n gives n |
| Values.AsString | app/Http/Controllers/AgencyController.php:155-160 | the text a rule measures: a string is itself, a non-negative integer its decimal digits |
| Values.LooseZeroVersusTruthy | app/Http/Controllers/CustomerRecordController.php:206 | `status == 0` and array_filter disagree exactly on the empty string and on strings of two or more zeros |
| Values.OrEmpty | app/Http/Controllers/AgencyController.php:211-213 | `x != null ? x : ''` never yields null; a loosely null value becomes "" and any other stays |
| Values.Coalesce | app/Http/Controllers/CustomerRecordController.php:200-206 | `x ?? d` keeps every non-null value and replaces only null |
| Values.LooseNullVersusTruthy | app/Http/Controllers/AgencyController.php:211-213 | a loosely null value is falsy; the only falsy value `!= null` keeps is "0" |
| Values.ArrayFilter | app/Http/Controllers/AgencyController.php:293 | array_filter keeps exactly the truthy entries, unchanged |
| Values.Only | app/Models/Agency.php:14-20 | mass assignment keeps exactly the payload keys in the allow-list, unchanged |
| Values.OnlyAllowed | app/Models/Agency.php:14-20 | a payload whose keys are all allowed passes the allow-list whole |
| Values.ArrayFilterIdempotent | app/Http/Controllers/AgencyController.php:293 | filtering twice equals filtering once |
| Values.ArrayFilterDropsFalsy | app/Http/Controllers/AgencyController.php:293 | null, false, 0, "" and "0" never survive array_filter |
| Schema.EmptyDb | database/migrations/2024_09_19_013022_create_sales_table.php:14-29 | the freshly migrated database satisfies every table constraint |
| Schema.HasMany | app/Models/Customer.php:21-34 | a has-many relation is exactly the rows whose foreign column holds the owner's id |
| Schema.BelongsTo | app/Models/PhonesNumber.php:21-28 | a belongs-to relation resolves iff the foreign column holds the id of an existing row |
| Schema.OperatorPhoneNumbersKeyedOnId | app/Models/Operators.php:19-22 | an operator's phoneNumbers are the phone row whose own id equals the operator id, not its operator_id rows |
| Schema.TypificationSaleAlwaysNone | app/Models/Typification.php:18-21 | a typification's sales() never resolves, since typifications have no operator_id column |
| Schema.CustomerPhonesExact | app/Models/Customer.php:21-24 | a customer's phone numbers are exactly the phone rows whose customer_id is its id |
| Schema.Fill | database/migrations/2024_09_20_013023_create_customer_records_table.php:15-27 | an inserted row has exactly the table's columns: given values where supplied, the migration default otherwise |
| Schema.Overwrite | app/Http/Controllers/AgencyController.php:293 | an update writes the supplied columns and keeps every other column |
| Schema.PhonesWrite | database/migrations/2024_09_18_153045_create_phones_numbers_table.php:14-22 | writing a phone row that meets the foreign keys and the phone/imei uniqueness keeps the phones table valid |
| Schema.SalesWrite | database/migrations/2024_09_19_013022_create_sales_table.php:14-29 | writing a sale that meets the six foreign keys and the sales_order/imei uniqueness keeps the sales table valid |
| Schema.RecordsWrite | database/migrations/2024_09_20_013023_create_customer_records_table.php:15-27 | writing a record that meets its foreign keys keeps the customer_records table valid |
| Schema.ColRefersShrink | database/migrations/2024_09_19_013022_create_sales_table.php:16-21 | deleting a row no foreign key points to keeps every reference valid (delete-restrict) |
| Schema.UniqueColWrite | database/migrations/2024_09_18_153045_create_phones_numbers_table.php:18 | writing a value not held by another row keeps a unique column unique |
| Schema.UniqueNonNullColWrite | database/migrations/2024_09_18_153045_create_phones_numbers_table.php:20 | writing null or a fresh value keeps a nullable unique column unique |
| Rules.Validated | app/Http/Controllers/AgencyController.php:155-161 | validate() returns exactly the payload entries that have a rule, unchanged |
| Rules.UniqueRejectsHeldValue | app/Http/Controllers/SalesController.php:357 | a unique rule rejects any value some row already holds, that row itself included |
| Rules.CustomerStoreAccepts | app/Http/Controllers/CustomerController.php:164-170 | customer store validation passes iff agency_id is an integer, name (<=255) and dni (<=8) are present, a given phone is a string no phone row holds and a given operator_id exists |
| Rules.CustomerPhoneDigitsNotChecked | app/Http/Controllers/CustomerController.php:168 | `string:digits:9` never checks digits: a payload with phone "not-a-phone" passes |
| Rules.CustomerUpdateAccepts | app/Http/Controllers/CustomerController.php:310-315 | customer update validation, field by field, with every field optional |
| Rules.PhoneStoreAccepts | app/Http/Controllers/PhonesNumberController.php:106-112 | phone store validation passes iff phone is a fresh string of <=9 chars, customer_id and operator_id are integers and equip/imei fit; existence is not checked |
| Rules.PhoneUpdateAccepts | app/Http/Controllers/PhonesNumberController.php:250-256 | phone update validation, all fields optional; the imei rule is keyed `ime` |
| Rules.SaleStoreKeysAccepted | app/Http/Controllers/SalesController.php:155-160 | the six foreign ids of a sale are required and must exist |
| Rules.SaleStoreValuesAccepted | app/Http/Controllers/SalesController.php:161-166 | origin required, sales_order a fresh string of <=9 chars, phone exactly 9 digits, imei null or exactly 15 digits |
| Rules.SaleStoreAccepts | app/Http/Controllers/SalesController.php:154-167 | sale store validation is the conjunction of its key and value rules |
| Rules.SaleUpdateKeysAccepted | app/Http/Controllers/SalesController.php:351-355 | sale update validation of ids; an operator_id key can never pass, its table `operator` does not exist |
| Rules.SaleUpdateValuesAccepted | app/Http/Controllers/SalesController.php:356-361 | a new sales_order must be exactly 9 digits and held by no sale |
| Rules.SaleUpdateAccepts | app/Http/Controllers/SalesController.php:350-362 | sale update validation is the conjunction of its key and value rules |
| Rules.SaleUpdateOperatorAlwaysFails | app/Http/Controllers/SalesController.php:355 | any sale update payload carrying operator_id fails validation |
| Rules.RecordStoreAccepts | app/Http/Controllers/CustomerRecordController.php:135-143 | record store validation passes iff user, operator and customer exist, phone is 9 digits held by no record, schedules null or strings |
| Rules.RecordUpdateAccepts | app/Http/Controllers/CustomerRecordController.php:289-297 | record update validation, all fields optional, status boolean-like |
| Rules.AgencyStoreAccepts | app/Http/Controllers/AgencyController.php:155-160 | agency store validation: name and address strings <=100, phone 9 digits if non-null, email valid and unused if non-null |
| Rules.AgencyUpdateAccepts | app/Http/Controllers/AgencyController.php:287-292 | agency update validation, all fields optional |
| Rules.OperatorAccepts | app/Http/Controllers/OperatorsController.php:96-98 | operator validation: a name string of <=10 chars that no operator holds |
| Rules.SalesUserStoreAccepts | app/Http/Controllers/SalesUserController.php:110-113 | sales user store: integer agency_id (existence unchecked) and a name no sales user holds |
| Rules.SalesUserUpdateAccepts | app/Http/Controllers/SalesUserController.php:228-231 | sales user update validation, both fields optional |
| Rules.SalesTypeStoreAccepts | app/Http/Controllers/SalesTypeController.php:111-114 | sales type store: name <=255 required, description null or string |
| Rules.SalesTypeUpdateAccepts | app/Http/Controllers/SalesTypeController.php:233-236 | sales type update validation, both fields optional |
| Rules.TypificationStoreAccepts | app/Http/Controllers/TypificationController.php:108-110 | typification store: a name string of <=100 chars |
| Rules.TypificationUpdateAccepts | app/Http/Controllers/TypificationController.php:224-226 | typification update: name optional, null or a string of <=255 chars |
| Rules.RegisterAccepts | app/Http/Controllers/API/RegisterController.php:58-63 | register validation: name <=80, email valid and unused, password >=6, c_password equal to password |
| Rules.PhoneUpdateRejectsHeldPhone | app/Http/Controllers/PhonesNumberController.php:253 | a phone update resubmitting any held phone, its own included, fails validation |
| Rules.SaleUpdateRejectsHeldOrder | app/Http/Controllers/SalesController.php:357 | a sale update resubmitting any held sales_order, its own included, fails |
| Rules.RecordUpdateRejectsHeldPhone | app/Http/Controllers/CustomerRecordController.php:292 | a record update resubmitting any held phone, its own included, fails |
| Rules.AgencyUpdateRejectsHeldEmail | app/Http/Controllers/AgencyController.php:291 | an agency update resubmitting any held email, its own included, fails |
| Rules.OperatorRejectsHeldName | app/Http/Controllers/OperatorsController.php:205-207 | an operator name held by any operator, the updated one included, fails |
| Rules.SalesUserUpdateRejectsHeldName | app/Http/Controllers/SalesUserController.php:230 | a sales user name held by any sales user, the updated one included, fails |
| Rules.PhoneStoreDropsEquipImei | app/Models/PhonesNumber.php:14-20 | validated equip and imei never reach a phone row on store |
| Rules.PhoneUpdateDropsEquipImei | app/Http/Controllers/PhonesNumberController.php:259 | equip, imei and the misspelled ime never reach a phone row on update |
| Rules.CustomerUpdateDropsOperator | app/Models/Customer.php:14-20 | a validated operator_id is never written to a customer |
| Rules.RecordAllowListDropsSale | app/Models/CustomerRecord.php:14-23 | sales_id and id are never taken from a payload |
| Rules.RecordUpdateStatusOnlyTrue | app/Http/Controllers/CustomerRecordController.php:296-304 | after array_filter a record update can only carry a true status |
| Rules.TruthyBoolean | app/Http/Controllers/CustomerRecordController.php:296 | among boolean-like values exactly true, 1 and "1" are truthy |
| Query.FirstIn | app/Http/Controllers/CustomerController.php:223 | `where(c, v)->first()` finds the lowest id holding v, or reports that none does |
| Query.FirstIsOnly | app/Http/Controllers/CustomerController.php:223 | when exactly one row holds v, first() finds that row |
| Query.FirstFindsHeld | app/Http/Controllers/CustomerRecordController.php:194 | first() finds a row iff some row holds the value |
| Query.FirstText | app/Http/Controllers/CustomerController.php:223 | `where(c, s)->first()` on a string column finds the lowest id whose column holds s (a number as its digits, null never), or reports that none does |
| Query.FirstTextIsOnly | app/Http/Controllers/CustomerController.php:223 | when exactly one row holds s, that first() finds that row |
| Query.FirstTextFindsHeld | app/Http/Controllers/CustomerController.php:223 | that first() finds a row iff some row holds s |
| Query.IdsIn | app/Http/Controllers/AgencyController.php:77-98 | a listing holds exactly the table's ids, ascending |
| Query.ListsEveryKey | app/Http/Controllers/AgencyController.php:77-98 | a listing's entries name every row exactly once, in id order |
| Query.IdsWhere | app/Http/Controllers/CustomerController.php:21-24 | the rows whose column holds v, ascending |
| Query.PerPage | app/Http/Controllers/CustomerController.php:64-66 | page size: the per_page given, the controller default when absent, the model default 15 for 0 |
| Query.CurrentPage | app/Http/Controllers/CustomerController.php:66 | the page read is the requested one when >=1, otherwise the first |
| Query.Page | app/Http/Controllers/CustomerController.php:66 | a page is the slice of at most `size` items starting at (page-1)*size, non-empty when that start is in range |
| Query.DivideIndex | app/Http/Controllers/SalesTypeController.php:40 | every position has a quotient and remainder by the page size |
| Query.PageLocates | app/Http/Controllers/SalesTypeController.php:40 | item q*size+m sits at position m of page q+1 |
| Query.EveryIdOnSomePage | app/Http/Controllers/SalesTypeController.php:40 | every listed id appears on some page |
| Query.PageAscending | app/Http/Controllers/CustomerController.php:66 | a page of an ascending listing is ascending |
| Query.LexLeTotal | app/Http/Controllers/SalesTypeController.php:40 | the name order is total |
| Query.InsertByName | app/Http/Controllers/SalesTypeController.php:40 | insertion by name adds exactly one id |
| Query.InsertByNameSorted | app/Http/Controllers/SalesTypeController.php:40 | insertion into a name-sorted list keeps it sorted |
| Query.SortByName | app/Http/Controllers/SalesTypeController.php:40 | orderBy('name', 'ASC') returns a name-sorted permutation of the ids |
| Query.PageSortedByName | app/Http/Controllers/SalesTypeController.php:40 | every page of a name-sorted listing is name-sorted |
| Agencies.JsonList | app/Http/Controllers/AgencyController.php:84-92 | the listing shows each agency's id and name, in the order given |
| Agencies.StoreRuleKeys | app/Http/Controllers/AgencyController.php:155-160 | store validates exactly the agency columns |
| Agencies.UpdateRuleKeys | app/Http/Controllers/AgencyController.php:287-292 | update validates exactly the agency columns |
| Agencies.StoreStatus | app/Http/Controllers/AgencyController.php:152-166 | store answers 201 iff validation passes, otherwise 500 with nothing written |
| Agencies.NewRowHolds | app/Http/Controllers/AgencyController.php:161 | the created row holds each agency column as given, null when absent |
| Agencies.StoreEffect | app/Http/Controllers/AgencyController.php:161-162 | a 201 adds exactly one agency, under the next id, and changes nothing else |
| Agencies.StorePreserves | app/Http/Controllers/AgencyController.php:152-166 | store keeps the database consistent |
| Agencies.WithAgencyPreserves | app/Http/Controllers/AgencyController.php:161 | inserting a validated agency keeps the email unique |
| Agencies.StoredEmailFresh | app/Http/Controllers/AgencyController.php:159 | a validated agency's email is null or held by no agency |
| Agencies.AgencyInserted | app/Http/Controllers/AgencyController.php:161 | inserting a row whose email is null or fresh keeps the database consistent |
| Agencies.UpdateOutcome | app/Http/Controllers/AgencyController.php:280-298 | update answers 404 for an unknown id before validating, 500 on a failed validation, else 200 writing exactly the truthy given fields |
| Agencies.UpdateOwnEmailFails | app/Http/Controllers/AgencyController.php:291 | resubmitting the agency's own email fails with 500 |
| Agencies.UpdatePreserves | app/Http/Controllers/AgencyController.php:280-298 | update keeps the database consistent |
| Agencies.JsonFields | app/Http/Controllers/AgencyController.php:208-215 | show maps a null address, phone or email to "" |
| Agencies.ShowOutcome | app/Http/Controllers/AgencyController.php:201-220 | show answers 404 for an unknown id, else the agency with no null field but name |
| Agencies.StoreThenShow | app/Http/Controllers/AgencyController.php:152-220 | after a 201 store, showing the new id gives back the stored fields, nulls as "" |
| Agencies.DestroyOutcome | app/Http/Controllers/AgencyController.php:325-337 | destroy removes exactly that agency, or answers 404 and changes nothing |
| Agencies.DestroyPreserves | app/Http/Controllers/AgencyController.php:325-337 | destroy keeps the database consistent |
| Agencies.IndexListsAll | app/Http/Controllers/AgencyController.php:77-98 | the index lists every agency exactly once, in id order |
| Customers.PhonesOf | app/Http/Controllers/CustomerController.php:76-82 | a customer's phone numbers listed in id order, exactly those whose customer_id is the customer |
| Customers.IndexIds | app/Http/Controllers/CustomerController.php:64-66 | the customers on the requested page |
| Customers.InsertPhone | app/Http/Controllers/CustomerController.php:172-176 | the phone insert succeeds iff the row meets the phones table constraints; a failure leaves the database as it was |
| Customers.WithoutPhonesOf | app/Http/Controllers/CustomerController.php:355 | deleting a customer's phone numbers removes exactly the rows pointing to it and keeps the rest |
| Customers.LoadedIffOperators | app/Http/Controllers/CustomerController.php:80 | a customer's phones all resolve an operator iff none has a null operator_id |
| Customers.CustomerInserted | app/Http/Controllers/CustomerController.php:171 | inserting a customer row keeps the database consistent |
| Customers.CustomerRowHolds | app/Http/Controllers/CustomerController.php:171 | the customer row holds exactly agency_id, name and dni from the request |
| Customers.PhoneRowHolds | app/Http/Controllers/CustomerController.php:172-176 | the phone row holds the given phone and operator_id, the new customer's id, and null equip/imei |
| Customers.StoreStatus | app/Http/Controllers/CustomerController.php:161-182 | store answers 201 iff validation passes and a given phone fits its column, else 500; a failed validation writes nothing |
| Customers.StoreSteps | app/Http/Controllers/CustomerController.php:171-178 | store inserts the customer, then the phone row only when a phone key is present |
| Customers.StoreAddsCustomer | app/Http/Controllers/CustomerController.php:171 | a validated store adds exactly one customer under the next customer id |
| Customers.WithCustomerHolds | app/Http/Controllers/CustomerController.php:171 | the customer insert adds exactly one row holding the given fields |
| Customers.StoreAddsPhone | app/Http/Controllers/CustomerController.php:172-176 | a 201 with a phone adds exactly one phone row, under the next phone id, linked to the new customer; otherwise phones are unchanged |
| Customers.InsertPhoneWrites | app/Http/Controllers/CustomerController.php:172-176 | the phone insert touches only the phones table |
| Customers.StoreGrowsBy | app/Http/Controllers/CustomerController.php:171 | a validated store always consumes one customer id, even when the phone insert then fails |
| Customers.StorePreserves | app/Http/Controllers/CustomerController.php:161-182 | store keeps the database consistent, the half-done store included |
| Customers.WithCustomerPreserves | app/Http/Controllers/CustomerController.php:171 | the customer insert keeps the database consistent |
| Customers.InsertPhonePreserves | app/Http/Controllers/CustomerController.php:172-176 | the phone insert keeps the database consistent |
| Customers.StoreWithoutOperatorBreaksShow | app/Http/Controllers/CustomerController.php:172-176 | a customer stored with a phone but no operator_id can no longer be shown: show answers 500 |
| Customers.CreatedPasses | app/Http/Controllers/CustomerController.php:164-178 | a 201 implies the payload passed validation |
| Customers.NewCustomerFound | app/Http/Controllers/CustomerController.php:223 | a stored customer whose dni (a string, or a number read as its digits) no customer held is the one show finds |
| Customers.NewPhoneDangling | app/Http/Controllers/CustomerController.php:172-176 | the phone row stored without operator_id has no operator |
| Customers.StoreTakesTwoKeys | app/Http/Controllers/CustomerController.php:171-176 | a store with a phone consumes one customer id and one phone id and leaves operators alone |
| Customers.ShowFailsForPhone | app/Http/Controllers/CustomerController.php:232-239 | show answers 500 when one of the customer's phones has no operator |
| Customers.ShowOutcome | app/Http/Controllers/CustomerController.php:220-247 | show finds the lowest-id customer whose dni column holds that dni, a number matching its digits, or answers 404; it answers 500 iff one of its phones has a null operator |
| Customers.ShowListsPhones | app/Http/Controllers/CustomerController.php:232-239 | show lists every phone of the customer, in id order |
| Customers.UpdateStatus | app/Http/Controllers/CustomerController.php:307-324 | update answers 200 iff validation passes and some customer's dni column holds the dni; an unknown dni gives 500, never 404; failures write nothing |
| Customers.UpdateEffect | app/Http/Controllers/CustomerController.php:316-317 | update writes exactly the truthy agency_id, name and dni of the first customer with that dni; operator_id is never written |
| Customers.ChangesWritten | app/Http/Controllers/CustomerController.php:317 | each of agency_id, name, dni is the given value when truthy, else the old one |
| Customers.UpdatePreserves | app/Http/Controllers/CustomerController.php:307-324 | update keeps the database consistent |
| Customers.DestroyStatus | app/Http/Controllers/CustomerController.php:351-361 | destroy answers 200 iff the customer exists and no sale or record refers to it; an unknown id gives 500 |
| Customers.DestroySteps | app/Http/Controllers/CustomerController.php:354-357 | destroy deletes the phone rows, then the customer; a restricted delete keeps the phone deletion |
| Customers.DestroyDeletesPhones | app/Http/Controllers/CustomerController.php:355 | after destroy of an existing customer none of its phone rows remain and all others are unchanged |
| Customers.DestroyPreserves | app/Http/Controllers/CustomerController.php:351-361 | destroy keeps the database consistent |
| Customers.IndexOutcome | app/Http/Controllers/CustomerController.php:61-102 | the index answers 404 for an empty page, 500 if a listed customer has a phone with no operator, else the page in id order |
| Phones.IndexList | app/Http/Controllers/PhonesNumberController.php:45-52 | the listing shows each phone row's id, in the order given |
| Phones.StoreRuleKeys | app/Http/Controllers/PhonesNumberController.php:106-112 | store validates exactly the phone columns |
| Phones.StoreWrites | app/Models/PhonesNumber.php:14-20 | of the validated keys, only phone, customer_id and operator_id are assignable |
| Phones.NewRowHolds | app/Http/Controllers/PhonesNumberController.php:114 | the created row holds phone, customer_id and operator_id as given and null equip/imei |
| Phones.StoreKeysKept | app/Models/PhonesNumber.php:14-20 | phone, customer_id and operator_id are validated and assignable; equip and imei are not assignable |
| Phones.StoreStatus | app/Http/Controllers/PhonesNumberController.php:102-120 | store answers 201 iff validation passes and both ids exist, else 500 with nothing written |
| Phones.StoreEffect | app/Http/Controllers/PhonesNumberController.php:114-116 | a 201 adds exactly one phone row, equip and imei null, and changes nothing else |
| Phones.StorePreserves | app/Http/Controllers/PhonesNumberController.php:102-120 | store keeps the database consistent |
| Phones.UpdateRuleKeys | app/Http/Controllers/PhonesNumberController.php:250-256 | update validates customer_id, operator_id, phone, equip and the misspelled ime |
| Phones.ChangesHold | app/Http/Controllers/PhonesNumberController.php:259 | the written changes are the truthy customer_id, operator_id and phone; equip and imei never |
| Phones.UpdateStatus | app/Http/Controllers/PhonesNumberController.php:240-266 | update answers 404 for an unknown id before validating and 500 on a failed validation; failures write nothing |
| Phones.UpdateEffect | app/Http/Controllers/PhonesNumberController.php:259-262 | a 200 writes exactly the truthy customer_id, operator_id and phone and keeps equip and imei |
| Phones.UpdateRow | app/Http/Controllers/PhonesNumberController.php:259 | the updated row holds the truthy given fields and the old ones otherwise, and its phone stays unique |
| Phones.UpdateRefusedByDatabase | app/Http/Controllers/PhonesNumberController.php:259-264 | a validated update fails with 500 iff a written id refers to no row or the phone exceeds 9 chars |
| Phones.StoredAccepted | database/migrations/2024_09_18_153045_create_phones_numbers_table.php:14-22 | every stored phone row meets the phones table constraints |
| Phones.RefusedIff | app/Http/Controllers/PhonesNumberController.php:259-264 | the database refuses a validated update exactly when a written value breaks the phones table constraints |
| Phones.UpdateOwnPhoneFails | app/Http/Controllers/PhonesNumberController.php:253 | resubmitting the row's own phone fails with 500 |
| Phones.UpdatePreserves | app/Http/Controllers/PhonesNumberController.php:240-266 | update keeps the database consistent |
| Phones.DestroyOutcome | app/Http/Controllers/PhonesNumberController.php:293-307 | destroy removes exactly that row, or answers 404 and changes nothing |
| Phones.DestroyPreserves | app/Http/Controllers/PhonesNumberController.php:293-307 | destroy keeps the database consistent |
| Phones.ShowOutcome | app/Http/Controllers/PhonesNumberController.php:154-175 | show answers 404 for an unknown id, else the row: customer_id as stored, operator_id and phone as stored with a loosely-null value sent as "" |
| Phones.IndexStatus | app/Http/Controllers/PhonesNumberController.php:36-58 | the index answers 404 iff there are no phones, and names the operator key `operators_id` |
| Phones.IndexListsAll | app/Http/Controllers/PhonesNumberController.php:36-58 | the index lists every phone row exactly once, in id order |
| Operators.JsonList | app/Http/Controllers/OperatorsController.php:44-50 | the listing shows each operator's id, in the order given |
| Operators.RuleKeys | app/Http/Controllers/OperatorsController.php:96-98 | store and update validate exactly the operator columns |
| Operators.StoreStatus | app/Http/Controllers/OperatorsController.php:92-106 | store answers 200, not 201, iff name is a fresh string of <=10 chars, else 500 with nothing written |
| Operators.StoreEffect | app/Http/Controllers/OperatorsController.php:100-102 | a 200 adds exactly one operator holding the name |
| Operators.StorePreserves | app/Http/Controllers/OperatorsController.php:92-106 | store keeps the database consistent |
| Operators.WithOperatorPreserves | app/Http/Controllers/OperatorsController.php:100 | inserting a validated operator keeps names unique |
| Operators.NewRowName | app/Http/Controllers/OperatorsController.php:100 | the created row holds exactly the given name |
| Operators.OperatorInserted | app/Http/Controllers/OperatorsController.php:100 | inserting a row with a fresh name keeps the database consistent |
| Operators.UpdateStatus | app/Http/Controllers/OperatorsController.php:202-216 | update answers 201 iff validation passes and the id exists; an unknown id gives 500, never 404 |
| Operators.UpdateOwnNameFails | app/Http/Controllers/OperatorsController.php:205-207 | resubmitting the operator's own name fails with 500 |
| Operators.UpdateEffect | app/Http/Controllers/OperatorsController.php:211 | a 201 writes the name, except "0" which array_filter drops |
| Operators.UpdatePreserves | app/Http/Controllers/OperatorsController.php:202-216 | update keeps the database consistent |
| Operators.DestroyOutcome | app/Http/Controllers/OperatorsController.php:243-258 | destroy answers 404 for an unknown id, 500 while phones, sales or records refer to it, else 200 removing exactly that operator |
| Operators.DestroyPreserves | app/Http/Controllers/OperatorsController.php:243-258 | destroy keeps the database consistent |
| Operators.ShowOutcome | app/Http/Controllers/OperatorsController.php:138-157 | show answers the operator's id and name, or 404 |
| Operators.IndexListsAll | app/Http/Controllers/OperatorsController.php:35-56 | the index lists every operator exactly once, in id order |
| Records.ShownStatus | app/Http/Controllers/CustomerRecordController.php:206 | `status == 0 ? false : true` always shows a boolean |
| Records.CustomerField | app/Http/Controllers/CustomerRecordController.php:200-201 | `customer->name ?? ''` never shows null |
| Records.IndexIds | app/Http/Controllers/CustomerRecordController.php:46-48 | the records on the requested page |
| Records.JsonPage | app/Http/Controllers/CustomerRecordController.php:53-67 | the listing shows one entry per listed record, with its id, in order |
| Records.InsertRecord | app/Http/Controllers/CustomerRecordController.php:145 | the insert succeeds iff the row meets the customer_records constraints; a failure leaves the database as it was |
| Records.ReplaceRecord | app/Http/Controllers/CustomerRecordController.php:304 | the update succeeds iff the new row meets the customer_records constraints; a failure leaves the database as it was |
| Records.JsonFields | app/Http/Controllers/CustomerRecordController.php:198-206 | show maps null schedules to "" and status through `== 0` |
| Records.StoreRuleKeys | app/Http/Controllers/CustomerRecordController.php:135-143 | store validates user, operator, customer, phone and schedules, all assignable |
| Records.UpdateRuleKeys | app/Http/Controllers/CustomerRecordController.php:289-297 | update validates operator, customer, phone, schedules and status, all assignable |
| Records.NewRowHolds | database/migrations/2024_09_20_013023_create_customer_records_table.php:15-27 | the created row holds the given fields, null sales_id and the default status false |
| Records.StoreGiven | app/Models/CustomerRecord.php:14-23 | the store writes exactly the validated assignable keys; never sales_id or status |
| Records.StoreSkips | app/Http/Controllers/CustomerRecordController.php:135-143 | store validates neither sales_id nor status |
| Records.StoreRowAccepted | app/Http/Controllers/CustomerRecordController.php:135-145 | a validated row meets the table constraints and its phone is held by no record |
| Records.StoreStatus | app/Http/Controllers/CustomerRecordController.php:131-151 | store answers 201 iff validation passes, else 500 with nothing written |
| Records.StoreSteps | app/Http/Controllers/CustomerRecordController.php:145-147 | a 201 store inserts exactly the new row under the next id |
| Records.StoreAddsRow | app/Http/Controllers/CustomerRecordController.php:145 | a 201 adds exactly one record |
| Records.InsertAdds | app/Http/Controllers/CustomerRecordController.php:145 | a successful insert adds exactly the given row |
| Records.StoreKeepsRows | app/Http/Controllers/CustomerRecordController.php:145 | a store changes no other record and no other table |
| Records.StorePreserves | app/Http/Controllers/CustomerRecordController.php:131-151 | store keeps the database consistent |
| Records.StoreThenShow | app/Http/Controllers/CustomerRecordController.php:131-215 | after a 201 store for a new user, show finds that record with status false and absent schedules as "" |
| Records.StoredLoaded | app/Http/Controllers/CustomerRecordController.php:145 | the stored record's relations all resolve |
| Records.FirstOfNewUser | app/Http/Controllers/CustomerRecordController.php:194 | show by user_id finds the new record of a user who had none |
| Records.AddedFirst | app/Http/Controllers/CustomerRecordController.php:194 | a row added with a value no row held is the first holding it |
| Records.ShowOutcome | app/Http/Controllers/CustomerRecordController.php:191-215 | show answers the lowest-id record of that user_id, or 404 |
| Records.LinkedLoaded | database/migrations/2024_09_20_013023_create_customer_records_table.php:17-19 | in a consistent database every record's user, operator and customer exist |
| Records.ChangesHold | app/Http/Controllers/CustomerRecordController.php:304 | the written changes are exactly the truthy validated fields; never user_id or sales_id |
| Records.ChangesKeys | app/Http/Controllers/CustomerRecordController.php:304 | array_filter of the validated keys: present, truthy, ruled fields |
| Records.UpdateKeysAllowed | app/Models/CustomerRecord.php:14-23 | every validated update key is assignable; user_id and sales_id are not validated |
| Records.UpdateRowAccepted | app/Http/Controllers/CustomerRecordController.php:304 | a validated update of a stored record meets the table constraints |
| Records.StoredAccepted | database/migrations/2024_09_20_013023_create_customer_records_table.php:15-27 | every stored record meets the table constraints |
| Records.OverwriteAccepted | database/migrations/2024_09_20_013023_create_customer_records_table.php:17-24 | overwriting fields with values that meet their constraints keeps a valid row valid |
| Records.UpdateStatus | app/Http/Controllers/CustomerRecordController.php:286-309 | update validates first: 500 on a failed validation, then 404 if no record has that customer_id, else 200 |
| Records.UpdateCases | app/Http/Controllers/CustomerRecordController.php:289-305 | update validates, looks up the first record by customer_id, then writes the filtered changes |
| Records.UpdateSteps | app/Http/Controllers/CustomerRecordController.php:298-304 | a 200 writes the filtered changes into the first record with that customer_id |
| Records.UpdateWritesFields | app/Http/Controllers/CustomerRecordController.php:304 | each ruled field becomes the given value when truthy, else keeps its value; other fields are kept |
| Records.UpdateKeepsOthers | app/Http/Controllers/CustomerRecordController.php:304 | update changes no other record and no other table |
| Records.UpdateNeverClearsStatus | app/Http/Controllers/CustomerRecordController.php:296-304 | update can set status to true but never back to false |
| Records.StatusChange | app/Http/Controllers/CustomerRecordController.php:296-304 | status is written iff it is given truthy, and then it never shows false |
| Records.TrueNotZero | app/Http/Controllers/CustomerRecordController.php:206 | true, 1 and "1" are not `== 0` |
| Records.UpdateOwnPhoneFails | app/Http/Controllers/CustomerRecordController.php:292 | resubmitting any held phone, the record's own included, fails with 500 |
| Records.UpdatePreserves | app/Http/Controllers/CustomerRecordController.php:286-309 | update keeps the database consistent |
| Records.DestroyOutcome | app/Http/Controllers/CustomerRecordController.php:336-348 | destroy removes exactly that record, or answers 404 and changes nothing |
| Records.DestroyPreserves | app/Http/Controllers/CustomerRecordController.php:336-348 | destroy keeps the database consistent |
| Records.IndexOutcome | app/Http/Controllers/CustomerRecordController.php:43-83 | the index answers 500 iff a listed record has an unresolved user or operator, else the page in id order |
| Records.IndexConsistentOk | app/Http/Controllers/CustomerRecordController.php:43-83 | in a consistent database the index answers 200 |
| Sales.AgencyName | app/Http/Controllers/SalesController.php:231 | the agency field is the agency's name when truthy, else "" |
| Sales.CustomerAddress | app/Http/Controllers/SalesController.php:237 | `customer->address ?? ''` never shows null |
| Sales.IndexIds | app/Http/Controllers/SalesController.php:50-52 | the sales on the requested page |
| Sales.JsonPage | app/Http/Controllers/SalesController.php:58-76 | the listing shows one entry per listed sale, with its id, in order |
| Sales.InsertSale | app/Http/Controllers/SalesController.php:169 | the insert succeeds iff the row meets the sales table constraints; a failure leaves the database as it was |
| Sales.ReplaceSale | app/Http/Controllers/SalesController.php:369 | the update succeeds iff the new row meets the sales table constraints; a failure leaves the database as it was |
| Sales.KeyRuleKeys | app/Http/Controllers/SalesController.php:155-160 | store validates the six foreign ids |
| Sales.ValueRuleKeys | app/Http/Controllers/SalesController.php:161-166 | store validates origin, sales_order, phone, equip, imei and notes |
| Sales.StoreRuleKeys | app/Http/Controllers/SalesController.php:154-167 | store validates exactly the sales columns |
| Sales.FillableColumns | app/Models/Sales.php:14-28 | every sales column is assignable; timestamps are not |
| Sales.NewRowHolds | app/Http/Controllers/SalesController.php:169 | the created row holds every sales column as given |
| Sales.ValidatedRow | app/Http/Controllers/SalesController.php:154-169 | a validated sale meets every constraint but imei uniqueness |
| Sales.StoreRowAccepted | app/Http/Controllers/SalesController.php:169 | a validated sale is accepted by the database iff its imei is null or held by no sale |
| Sales.NextKeyFree | database/migrations/2024_09_19_013022_create_sales_table.php:14-15 | the next id is not yet used |
| Sales.StoreStatus | app/Http/Controllers/SalesController.php:151-175 | store answers 201 iff validation passes and the imei fits, else 500 with nothing written |
| Sales.StoreTakenImeiFails | database/migrations/2024_09_19_013022_create_sales_table.php:25 | a sale whose imei another sale holds fails at insert with 500 |
| Sales.StoreSteps | app/Http/Controllers/SalesController.php:169-171 | a 201 inserts exactly the new row under the next id |
| Sales.StoreAddsRow | app/Http/Controllers/SalesController.php:169 | a 201 adds exactly one sale carrying every validated field |
| Sales.StoreKeepsRows | app/Http/Controllers/SalesController.php:169 | a store changes no other sale and no other table |
| Sales.StoreTableOk | database/migrations/2024_09_19_013022_create_sales_table.php:14-29 | a 201 store keeps the sales table valid |
| Sales.StorePreserves | app/Http/Controllers/SalesController.php:151-175 | store keeps the database consistent |
| Sales.ByOrderFinds | app/Http/Controllers/SalesController.php:223 | lookup by sales_order finds the one sale holding it, or none |
| Sales.JsonFields | app/Http/Controllers/SalesController.php:228-245 | show gives id, agency name, sales_order and an always-empty address |
| Sales.AddressEmpty | app/Http/Controllers/SalesController.php:237 | customers have no address column, so the address shown is always "" |
| Sales.ShowOutcome | app/Http/Controllers/SalesController.php:219-251 | show answers 404 for an unknown sales_order, 500 iff the agency does not resolve, else the sale |
| Sales.StoreThenShow | app/Http/Controllers/SalesController.php:151-251 | after a 201 store, show by its sales_order finds the new sale |
| Sales.UpdateKeyRuleKeys | app/Http/Controllers/SalesController.php:351-355 | update validates four foreign ids and operator_id |
| Sales.UpdateValueRuleKeys | app/Http/Controllers/SalesController.php:356-361 | update validates origin, sales_order, phone, equip, imei and notes |
| Sales.UpdateRuleKeys | app/Http/Controllers/SalesController.php:350-362 | update validates every sales column except sales_type_id |
| Sales.ChangesKeys | app/Http/Controllers/SalesController.php:369 | the changes are exactly the given validated fields, falsy ones included |
| Sales.ChangesHold | app/Http/Controllers/SalesController.php:369 | validated changes meet their column constraints and never carry operator_id |
| Sales.StoredAccepted | database/migrations/2024_09_19_013022_create_sales_table.php:14-29 | every stored sale meets the table constraints |
| Sales.OverwriteAccepted | app/Http/Controllers/SalesController.php:369 | overwriting with validated values is accepted iff the imei fits |
| Sales.UpdateRowAccepted | app/Http/Controllers/SalesController.php:369 | a validated update of a stored sale is accepted iff the imei fits |
| Sales.UpdateStatus | app/Http/Controllers/SalesController.php:346-375 | update validates first (500), then looks up by sales_order (404), then writes (200, or 500 if the database refuses) |
| Sales.UpdateSteps | app/Http/Controllers/SalesController.php:364-369 | a 200 writes the changes into the sale with that sales_order |
| Sales.UpdateWritesFields | app/Http/Controllers/SalesController.php:369 | every given column is overwritten as given, without array_filter; sales_type_id is kept |
| Sales.UpdateKeepsOthers | app/Http/Controllers/SalesController.php:369 | update changes no other sale and no other table |
| Sales.UpdateOperatorFails | app/Http/Controllers/SalesController.php:355 | an update carrying operator_id always answers 500 and writes nothing |
| Sales.UpdateOwnOrderFails | app/Http/Controllers/SalesController.php:357 | resubmitting any held sales_order, the sale's own included, fails with 500 |
| Sales.UpdateTableOk | database/migrations/2024_09_19_013022_create_sales_table.php:14-29 | a 200 update keeps the sales table valid |
| Sales.UpdatePreserves | app/Http/Controllers/SalesController.php:346-375 | update keeps the database consistent |
| Sales.DestroyOutcome | app/Http/Controllers/SalesController.php:402-416 | destroy answers 404 for an unknown sales_order, 500 while a record refers to the sale, else removes exactly it |
| Sales.DestroyPreserves | app/Http/Controllers/SalesController.php:402-416 | destroy keeps the database consistent |
| Sales.IndexOutcome | app/Http/Controllers/SalesController.php:46-93 | the index answers 500 iff a listed sale's agency does not resolve, else the page in id order |
| SalesTypes.IndexIds | app/Http/Controllers/SalesTypeController.php:38-40 | the sales types on the requested page of the name-ordered listing |
| SalesTypes.StoreRuleKeys | app/Http/Controllers/SalesTypeController.php:111-114 | store validates exactly the sales type columns |
| SalesTypes.UpdateRuleKeys | app/Http/Controllers/SalesTypeController.php:233-236 | update validates exactly the sales type columns |
| SalesTypes.StoreOutcome | app/Http/Controllers/SalesTypeController.php:108-122 | store answers 201 iff name is a string of <=255 chars and description null or a string, adding exactly that row; else 500 with nothing written |
| SalesTypes.NewRowIs | app/Http/Controllers/SalesTypeController.php:116 | the created row holds the given name and description |
| SalesTypes.StorePreserves | app/Http/Controllers/SalesTypeController.php:108-122 | store keeps the database consistent |
| SalesTypes.SalesTypeInserted | app/Http/Controllers/SalesTypeController.php:116 | inserting a sales type keeps the database consistent |
| SalesTypes.UpdateOutcome | app/Http/Controllers/SalesTypeController.php:224-244 | update answers 404 for an unknown id before validating, 500 on a failed validation, else writes every given field as given, an explicit null included |
| SalesTypes.UpdatePreserves | app/Http/Controllers/SalesTypeController.php:224-244 | update keeps the database consistent |
| SalesTypes.DestroyOutcome | app/Http/Controllers/SalesTypeController.php:271-286 | destroy answers 404 for an unknown id, 500 while a sale refers to it, else removes exactly it |
| SalesTypes.DestroyPreserves | app/Http/Controllers/SalesTypeController.php:271-286 | destroy keeps the database consistent |
| SalesTypes.ShowOutcome | app/Http/Controllers/SalesTypeController.php:155-174 | show answers 404 or the row: name as stored, description as stored with a loosely-null value sent as "" |
| SalesTypes.IndexPage | app/Http/Controllers/SalesTypeController.php:35-70 | the index page has at most per_page entries (default 20) ordered by name |
| SalesTypes.IndexFindsEvery | app/Http/Controllers/SalesTypeController.php:35-70 | every sales type is on some page of the index |
| SalesUsers.IndexIds | app/Http/Controllers/SalesUserController.php:38-40 | the sales users on the requested page |
| SalesUsers.StoreRuleKeys | app/Http/Controllers/SalesUserController.php:110-113 | store validates exactly the sales user columns |
| SalesUsers.UpdateRuleKeys | app/Http/Controllers/SalesUserController.php:228-231 | update validates exactly the sales user columns |
| SalesUsers.StoreOutcome | app/Http/Controllers/SalesUserController.php:107-121 | store answers 201 iff agency_id is an integer and name a fresh string, adding exactly that row; else 500 with nothing written |
| SalesUsers.StorePreserves | app/Http/Controllers/SalesUserController.php:107-121 | store keeps the database consistent |
| SalesUsers.WithSalesUserPreserves | app/Http/Controllers/SalesUserController.php:115 | inserting a validated sales user keeps names unique |
| SalesUsers.NewRowName | app/Http/Controllers/SalesUserController.php:115 | the created row holds the given name |
| SalesUsers.SalesUserInserted | app/Http/Controllers/SalesUserController.php:115 | inserting a row with a fresh name keeps the database consistent |
| SalesUsers.UpdateOutcome | app/Http/Controllers/SalesUserController.php:223-241 | update answers 200 iff the id exists and validation passes, writing every given field as given; an unknown id gives 500, never 404 |
| SalesUsers.UpdateOwnNameFails | app/Http/Controllers/SalesUserController.php:230 | resubmitting the sales user's own name fails with 500 |
| SalesUsers.UpdatePreserves | app/Http/Controllers/SalesUserController.php:223-241 | update keeps the database consistent |
| SalesUsers.DestroyOutcome | app/Http/Controllers/SalesUserController.php:268-282 | destroy answers 404 for an unknown id, 500 while a sale refers to it, else removes exactly it |
| SalesUsers.DestroyPreserves | app/Http/Controllers/SalesUserController.php:268-282 | destroy keeps the database consistent |
| SalesUsers.ShowOutcome | app/Http/Controllers/SalesUserController.php:154-173 | show answers the id, agency_id and name, or 404 |
| SalesUsers.IndexPage | app/Http/Controllers/SalesUserController.php:35-69 | the index page has at most per_page entries (default 10), in id order |
| SalesUsers.IndexFindsEvery | app/Http/Controllers/SalesUserController.php:35-69 | every sales user is on some page of the index |
| Typifications.IndexIds | app/Http/Controllers/TypificationController.php:37-40 | the typifications on the requested page |
| Typifications.StoreRuleKeys | app/Http/Controllers/TypificationController.php:108-110 | store validates exactly the typification columns |
| Typifications.UpdateRuleKeys | app/Http/Controllers/TypificationController.php:224-226 | update validates exactly the typification columns |
| Typifications.StoreOutcome | app/Http/Controllers/TypificationController.php:105-118 | store answers 201 iff name is a string of <=100 chars, adding exactly that row; else 500 with nothing written |
| Typifications.StorePreserves | app/Http/Controllers/TypificationController.php:105-118 | store keeps the database consistent |
| Typifications.TypificationInserted | app/Http/Controllers/TypificationController.php:112 | inserting a typification keeps the database consistent |
| Typifications.UpdateOutcome | app/Http/Controllers/TypificationController.php:214-234 | update answers 404 for an unknown id before validating, 500 for a non-null name that is not a string of <=255 chars, else writes the given name, null included |
| Typifications.UpdatePreserves | app/Http/Controllers/TypificationController.php:214-234 | update keeps the database consistent |
| Typifications.DestroyOutcome | app/Http/Controllers/TypificationController.php:261-276 | destroy answers 404 for an unknown id, 500 while a sale refers to it, else removes exactly it |
| Typifications.DestroyPreserves | app/Http/Controllers/TypificationController.php:261-276 | destroy keeps the database consistent |
| Typifications.ShowOutcome | app/Http/Controllers/TypificationController.php:150-169 | show answers the id and name, or 404 |
| Typifications.IndexPage | app/Http/Controllers/TypificationController.php:34-69 | the index page has at most per_page entries (default 10), in id order |
| Typifications.IndexFindsEvery | app/Http/Controllers/TypificationController.php:34-69 | every typification is on some page of the index |
| Auth.Bearer | app/Http/Controllers/API/RegisterController.php:161 | a token authenticates iff it exists and belongs to an existing user, and then names that user |
| Auth.Candidate | app/Http/Controllers/API/RegisterController.php:122-125 | the user attempt retrieves holds the e-mail sent; without an e-mail none is retrieved |
| Auth.Attempt | app/Http/Controllers/API/RegisterController.php:125 | a successful attempt names an existing user |
| Auth.WithoutTokensOf | app/Http/Controllers/API/RegisterController.php:166 | deleting a user's tokens removes exactly that user's tokens and keeps the rest |
| Auth.UserRowHolds | app/Http/Controllers/API/RegisterController.php:71-73 | the user row holds name, email and the password's hash, never the plaintext |
| Auth.RegisterStatus | app/Http/Controllers/API/RegisterController.php:55-84 | register answers 200 iff name <=80, email valid and unused, password >=6 and c_password equal; else 400 with nothing written |
| Auth.RegisterEffect | app/Http/Controllers/API/RegisterController.php:71-76 | a registration adds exactly one user under the next user id and one token, under the next token id, bound to that user |
| Auth.RegisteredHolds | app/Http/Controllers/API/RegisterController.php:71-76 | the creation step adds exactly the user and its token |
| Auth.RegisterThenLogin | app/Http/Controllers/API/RegisterController.php:55-139 | a user who just registered can log in with the same email and password and gets a token of their own |
| Auth.LoginStatus | app/Http/Controllers/API/RegisterController.php:120-139 | login answers 200 iff a non-null password was sent and some user has that email and the password's hash; 500 iff a user has the email and no password key was sent; else 401; only 200 writes |
| Auth.LoginEffect | app/Http/Controllers/API/RegisterController.php:125-133 | a login adds exactly one token, bound to the matching user, and keeps earlier tokens |
| Auth.LogoutEffect | app/Http/Controllers/API/RegisterController.php:159-168 | logout answers 401 without an authenticated user; else it removes every token of that user and keeps the others |
| Auth.LogoutRevokesAll | app/Http/Controllers/API/RegisterController.php:166 | after logout no token authenticates the user who logged out |
| Auth.CurrentOutcome | app/Http/Controllers/API/RegisterController.php:197-211 | user answers 401 when unauthenticated, else exactly the keys id, agency_id and name, each holding the authenticated user's stored value |
| Auth.RegisterPreserves | app/Http/Controllers/API/RegisterController.php:55-84 | register keeps the database consistent |
| Auth.RegisteredConsistent | app/Http/Controllers/API/RegisterController.php:71-76 | creating a user with an unused email and its token keeps the database consistent |
| Auth.LoginPreserves | app/Http/Controllers/API/RegisterController.php:120-139 | login keeps the database consistent |
| Auth.LogoutPreserves | app/Http/Controllers/API/RegisterController.php:159-168 | logout keeps the database consistent |
| Auth.AsWrittenEveryAnswerIs500 | app/Http/Controllers/API/RegisterController.php:222-230 | as written, every answer of register and login, and of logout and user for requests the `auth:api` middleware lets through, reaches the client as 500, while the state changes still happen |
| Auth.AsWrittenRegisterLosesSuccess | app/Http/Controllers/API/RegisterController.php:80 | as written, a successful registration creates the user and its token but answers 500 |
| Api.Store.constructor | database/migrations/2024_09_19_013022_create_sales_table.php:14-29 | a freshly migrated, empty and consistent database |
| Api.Store.Register | app/Http/Controllers/API/RegisterController.php:55-84 | register in place: answer and new tables are those of Auth.Register; consistency kept |
| Api.Store.Login | app/Http/Controllers/API/RegisterController.php:120-139 | login in place, as Auth.Login; consistency kept |
| Api.Store.Logout | app/Http/Controllers/API/RegisterController.php:159-168 | logout in place, as Auth.Logout; consistency kept |
| Api.Store.AgencyStore | app/Http/Controllers/AgencyController.php:152-166 | agency store in place, as Agencies.Store; consistency kept |
| Api.Store.AgencyUpdate | app/Http/Controllers/AgencyController.php:280-298 | agency update in place: lookup, validation, filtered write; as Agencies.Update |
| Api.Store.AgencyDestroy | app/Http/Controllers/AgencyController.php:325-337 | agency destroy in place, as Agencies.Destroy |
| Api.Store.CustomerStore | app/Http/Controllers/CustomerController.php:161-182 | customer store in place: customer insert then phone insert, not atomic; as Customers.Store |
| Api.Store.CustomerUpdate | app/Http/Controllers/CustomerController.php:307-324 | customer update by dni in place, as Customers.Update |
| Api.Store.CustomerDestroy | app/Http/Controllers/CustomerController.php:351-361 | customer destroy in place: phone rows deleted, then the customer; as Customers.Destroy |
| Api.Store.PhoneStore | app/Http/Controllers/PhonesNumberController.php:102-120 | phone store in place, as Phones.Store |
| Api.Store.PhoneUpdate | app/Http/Controllers/PhonesNumberController.php:240-266 | phone update in place, as Phones.Update |
| Api.Store.PhoneDestroy | app/Http/Controllers/PhonesNumberController.php:293-307 | phone destroy in place, as Phones.Destroy |
| Api.Store.OperatorStore | app/Http/Controllers/OperatorsController.php:92-106 | operator store in place, as Operators.Store |
| Api.Store.OperatorUpdate | app/Http/Controllers/OperatorsController.php:202-216 | operator update in place, as Operators.Update |
| Api.Store.OperatorDestroy | app/Http/Controllers/OperatorsController.php:243-258 | operator destroy in place, as Operators.Destroy |
| Api.Store.SalesTypeStore | app/Http/Controllers/SalesTypeController.php:108-122 | sales type store in place, as SalesTypes.Store |
| Api.Store.SalesTypeUpdate | app/Http/Controllers/SalesTypeController.php:224-244 | sales type update in place, as SalesTypes.Update |
| Api.Store.SalesTypeDestroy | app/Http/Controllers/SalesTypeController.php:271-286 | sales type destroy in place, as SalesTypes.Destroy |
| Api.Store.SalesUserStore | app/Http/Controllers/SalesUserController.php:107-121 | sales user store in place, as SalesUsers.Store |
| Api.Store.SalesUserUpdate | app/Http/Controllers/SalesUserController.php:223-241 | sales user update in place, as SalesUsers.Update |
| Api.Store.SalesUserDestroy | app/Http/Controllers/SalesUserController.php:268-282 | sales user destroy in place, as SalesUsers.Destroy |
| Api.Store.TypificationStore | app/Http/Controllers/TypificationController.php:105-118 | typification store in place, as Typifications.Store |
| Api.Store.TypificationUpdate | app/Http/Controllers/TypificationController.php:214-234 | typification update in place, as Typifications.Update |
| Api.Store.TypificationDestroy | app/Http/Controllers/TypificationController.php:261-276 | typification destroy in place, as Typifications.Destroy |
| Api.Store.SaleStore | app/Http/Controllers/SalesController.php:151-175 | sale store in place, as Sales.Store |
| Api.Store.SaleUpdate | app/Http/Controllers/SalesController.php:346-375 | sale update by sales_order in place, as Sales.Update |
| Api.Store.SaleDestroy | app/Http/Controllers/SalesController.php:402-416 | sale destroy by sales_order in place, as Sales.Destroy |
| Api.Store.RecordStore | app/Http/Controllers/CustomerRecordController.php:131-151 | record store in place, as Records.Store |
| Api.Store.RecordUpdate | app/Http/Controllers/CustomerRecordController.php:286-309 | record update by customer_id in place, as Records.Update |
| Api.Store.RecordDestroy | app/Http/Controllers/CustomerRecordController.php:336-348 | record destroy in place, as Records.Destroy |

## Left out

- HTTP transport, response envelopes and message texts: a reply is a status and the new database. Show and index return the fields the contracts speak of. `created_at` and the other timestamps are not modelled.
- The pagination `links` and `meta` blocks are not modelled. A page is the slice of the listing that `paginate` returns.
- Eager loading is modelled only where a missing relation raises an error (a phone without an operator, a record without its user or operator, a sale whose agency is missing).
- Routing and the `auth:api` middleware are not modelled. The authenticated user is the bearer token passed to logout and user. `/change-password` routes to a method that does not exist and is not modelled.
- bcrypt and Passport token minting are not modelled. The hash is a function parameter, and a token is a row in `tokens` keyed by that table's next id. Of `Auth::attempt` the model keeps the lookup by e-mail, the refusal of a null password and the exception raised when a user is found but no password key was sent.
- Laravel's `email` rule is reduced to "some character before and after an @".
- Laravel's type coercion is not modelled. `integer` accepts only integer values and `exists` only integer ids. A string such as "5" is not an integer here.
- MySQL's case-insensitive collation is not modelled: uniqueness and lookups compare exactly, and SalesTypes.IndexIds orders names by code point (`LexLe`), where MySQL's collation would order case-insensitively.
- Validation does not skip empty strings. Laravel's skipping of non-required rules for "" is not modelled; `required` rejects a blank value.
- Values.LooseZeroVersusTruthy: PHP's numeric-string comparison with 0 is modelled only for strings made of zeros. Strings such as "0.0" or " 0" are not covered.
- The User and SalesType models and the users, agencies, customers, operators, sales_users, sales_types and typifications migrations are not part of this model. Their columns are the validated ones, and their fillable lists are taken to be the validated fields.
- Each of the nine resource controllers defines its own `sendResponse($data, $message, $status = 200)`, which hands `$status` to `response()->json` (for example TypificationController.php:281 and SalesTypeController.php:291); the model's `Reply` status is that argument, and the JSON envelope of `data`, `message` and `status` is not modelled.
- PhonesNumberController's show calls the misspelled `seesponse` in its catch block (app/Http/Controllers/PhonesNumberController.php:173). Nothing in show raises in the model, so that path never runs.
- Lemmas that require `Consistent(db)` speak of the databases the application can reach. `Api.Store` keeps that invariant from the empty database on, and each action's `...Preserves` lemma proves it is kept.
- Records.ShowOutcome: stated for a consistent database only. There every record's user and operator exist, so it does not describe the 500 that a dangling relation would cause at app/Http/Controllers/CustomerRecordController.php:207-208.
- Concurrency and transactions are not modelled: requests run one at a time. Customer store and destroy are modelled as the non-atomic step sequences they are.
- Api.Store keeps the whole database as one `Db` value in one field rather than one field per table. Index and show are functions of that value.
- An insert the database refuses (a dangling foreign key, a duplicate unique value, a value too long) leaves its table's counter where it was. InnoDB may already have allocated that key, so after a refused insert the model hands out a key the database would skip.
- Agencies.DestroyOutcome: assumes that no table declares a foreign key to agencies. The users, customers and sales_users migrations, which hold an agency_id, are not part of this model; a restricting key there would turn some deletes into 500.
- SalesUsers.StoreOutcome: assumes that the sales_users migration, which is not part of this model, declares no foreign key on agency_id, so a dangling agency_id is stored rather than refused with 500.
- Customers.ShowOutcome, Customers.UpdateStatus and Customers.NewCustomerFound: the customers migration is not part of this model; dni is taken to be a string column, so a dni written as a number is compared as its decimal digits.
- Query.PerPage: `per_page` is a non-negative integer or absent. A negative value, which `paginate` would treat as no limit, is not modelled.
- Schema.OperatorPhoneNumbersKeyedOnId and Schema.TypificationSaleAlwaysNone state what two relations declared in the models resolve to; no action in this model loads either relation.

## Findings

| source | as written | input that shows it | evidently intended | confidence | as-written member | corrected member |
|---|---|---|---|---|---|---|
| app/Http/Controllers/API/RegisterController.php:222 | `sendResponse($data, $message, $status = 200, $errors)` has no default for `$errors`. Every call in register, login, logout and user except the catch at line 137 passes two or three arguments and throws ArgumentCountError, an Error no `catch (\Exception)` catches, so the client gets 500. | a valid registration (name "Ana", a fresh email, password and c_password "secret"): the user and its token are created and the answer is 500 | `$errors = null`, so each call answers the status it passes: 200/400 for register, 200/401 for login (the catch already passes four and answers 500), 200/401 for logout and user. Logout and user sit behind the `auth:api` middleware (routes/api.php:31-35), so an unauthenticated request gets the middleware's 401 and never reaches their 401 calls; the 500 there concerns requests that pass the middleware | not executed | Auth.AsWrittenRegisterLosesSuccess | Auth.RegisterStatus |
