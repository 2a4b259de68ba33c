/** The database the controllers share, as one mutable object holding every
    table and each table's next key. Each controller action that writes is a
    method that takes the action's steps on the tables in the order the
    controller takes them; its contract ties the answer and the new tables
    to the action's function, whose properties the controller modules
    prove, and keeps the store invariant. Index and show change nothing and
    are the functions of those modules applied to `db`. */
module Api {
  import opened Values
  import opened Schema
  import opened Rules
  import Agencies
  import Customers
  import Phones
  import Operators
  import SalesTypes
  import SalesUsers
  import Typifications
  import Sales
  import Records
  import Auth

  class Store {
    /** Every table and its next key. */
    var db: Db

    /** The migrations' constraints and the uniqueness the controllers keep. */
    predicate Valid()
      reads this
    {
      Consistent(db)
    }

    /** A freshly migrated database: every table empty. */
    constructor()
      ensures Valid() && db == EmptyDb()
    {
      db := EmptyDb();
    }

    // ---- RegisterController ----

    method Register(p: Payload, hash: string -> string) returns (status: int)
      requires Valid()
      modifies this
      ensures Reply(status, db) == Auth.Register(old(db), p, hash)
      ensures Valid()
    {
      Auth.RegisterPreserves(db, p, hash);
      if !Passes(RegisterRules, p, db) {
        return 400;
      }
      db := Auth.Registered(db, p, hash);
      return 200;
    }

    method Login(p: Payload, hash: string -> string) returns (status: int)
      requires Valid()
      modifies this
      ensures Reply(status, db) == Auth.Login(old(db), p, hash)
      ensures Valid()
    {
      Auth.LoginPreserves(db, p, hash);
      if Auth.AttemptRaises(db, p) {
        return 500;
      }
      var u := Auth.Attempt(db, p, hash);
      if u.None? {
        return 401;
      }
      db := Auth.WithToken(db, u.value);
      return 200;
    }

    method Logout(token: Option<Id>) returns (status: int)
      requires Valid()
      modifies this
      ensures Reply(status, db) == Auth.Logout(old(db), token)
      ensures Valid()
    {
      Auth.LogoutPreserves(db, token);
      var u := Auth.Bearer(db, token);
      if u.None? {
        return 401;
      }
      db := db.(tokens := Auth.WithoutTokensOf(db.tokens, u.value));
      return 200;
    }

    // ---- AgencyController ----

    method AgencyStore(p: Payload) returns (status: int)
      requires Valid()
      modifies this
      ensures Reply(status, db) == Agencies.Store(old(db), p)
      ensures Valid()
    {
      Agencies.StorePreserves(db, p);
      if !Passes(AgencyStoreRules, p, db) {
        return 500;
      }
      db := Agencies.WithAgency(db, p);
      return 201;
    }

    method AgencyUpdate(id: Id, p: Payload) returns (status: int)
      requires Valid()
      modifies this
      ensures Reply(status, db) == Agencies.Update(old(db), id, p)
      ensures Valid()
    {
      Agencies.UpdatePreserves(db, id, p);
      if id !in db.agencies {
        return 404;
      }
      if !Passes(AgencyUpdateRules, p, db) {
        return 500;
      }
      db := db.(agencies := db.agencies[id := Overwrite(db.agencies[id], Agencies.Changes(p))]);
      return 200;
    }

    method AgencyDestroy(id: Id) returns (status: int)
      requires Valid()
      modifies this
      ensures Reply(status, db) == Agencies.Destroy(old(db), id)
      ensures Valid()
    {
      Agencies.DestroyPreserves(db, id);
      if id !in db.agencies {
        return 404;
      }
      db := db.(agencies := db.agencies - {id});
      return 200;
    }

    // ---- CustomerController ----

    /** The customer is created first; a phone row the database refuses
        leaves it in place. */
    method CustomerStore(p: Payload) returns (status: int)
      requires Valid()
      modifies this
      ensures Reply(status, db) == Customers.Store(old(db), p)
      ensures Valid()
    {
      Customers.StorePreserves(db, p);
      if !Passes(CustomerStoreRules, p, db) {
        return 500;
      }
      var c := db.nextCustomer;
      db := Customers.WithCustomer(db, p);
      if "phone" !in p {
        return 201;
      }
      var row := Customers.PhoneRow(p, c);
      if !PhoneRowAccepted(row, db.nextPhone, db.phones, db.customers, db.operators) {
        return 500;
      }
      db := db.(phones := db.phones[db.nextPhone := row], nextPhone := db.nextPhone + 1);
      return 201;
    }

    method CustomerUpdate(dni: string, p: Payload) returns (status: int)
      requires Valid()
      modifies this
      ensures Reply(status, db) == Customers.Update(old(db), dni, p)
      ensures Valid()
    {
      Customers.UpdatePreserves(db, dni, p);
      if !Passes(CustomerUpdateRules, p, db) {
        return 500;
      }
      var c := Customers.ByDni(db, dni);
      if c.None? {
        return 500;
      }
      db := db.(customers := db.customers[c.value := Overwrite(db.customers[c.value], Customers.Changes(p))]);
      return 200;
    }

    /** The phone rows go first; a delete of the customer that db.sales or
        db.records restrict then fails with those rows already gone. */
    method CustomerDestroy(id: Id) returns (status: int)
      requires Valid()
      modifies this
      ensures Reply(status, db) == Customers.Destroy(old(db), id)
      ensures Valid()
    {
      Customers.DestroyPreserves(db, id);
      if id !in db.customers {
        return 500;
      }
      db := db.(phones := Customers.WithoutPhonesOf(db.phones, id));
      if !Unreferenced(db.sales, "customer_id", id) || !Unreferenced(db.records, "customer_id", id) {
        return 500;
      }
      db := db.(customers := db.customers - {id});
      return 200;
    }

    // ---- PhonesNumberController ----

    method PhoneStore(p: Payload) returns (status: int)
      requires Valid()
      modifies this
      ensures Reply(status, db) == Phones.Store(old(db), p)
      ensures Valid()
    {
      Phones.StorePreserves(db, p);
      if !Passes(PhoneStoreRules, p, db) {
        return 500;
      }
      if !PhoneRowAccepted(Phones.NewRow(p), db.nextPhone, db.phones, db.customers, db.operators) {
        return 500;
      }
      db := Phones.WithPhone(db, p);
      return 201;
    }

    method PhoneUpdate(id: Id, p: Payload) returns (status: int)
      requires Valid()
      modifies this
      ensures Reply(status, db) == Phones.Update(old(db), id, p)
      ensures Valid()
    {
      Phones.UpdatePreserves(db, id, p);
      if id !in db.phones {
        return 404;
      }
      if !Passes(PhoneUpdateRules, p, db) {
        return 500;
      }
      var row := Overwrite(db.phones[id], Phones.Changes(p));
      if !PhoneRowAccepted(row, id, db.phones, db.customers, db.operators) {
        return 500;
      }
      db := db.(phones := db.phones[id := row]);
      return 200;
    }

    method PhoneDestroy(id: Id) returns (status: int)
      requires Valid()
      modifies this
      ensures Reply(status, db) == Phones.Destroy(old(db), id)
      ensures Valid()
    {
      Phones.DestroyPreserves(db, id);
      if id !in db.phones {
        return 404;
      }
      db := db.(phones := db.phones - {id});
      return 200;
    }

    // ---- OperatorsController ----

    method OperatorStore(p: Payload) returns (status: int)
      requires Valid()
      modifies this
      ensures Reply(status, db) == Operators.Store(old(db), p)
      ensures Valid()
    {
      Operators.StorePreserves(db, p);
      if !Passes(OperatorRules, p, db) {
        return 500;
      }
      db := Operators.WithOperator(db, p);
      return 200;
    }

    method OperatorUpdate(id: Id, p: Payload) returns (status: int)
      requires Valid()
      modifies this
      ensures Reply(status, db) == Operators.Update(old(db), id, p)
      ensures Valid()
    {
      Operators.UpdatePreserves(db, id, p);
      if !Passes(OperatorRules, p, db) {
        return 500;
      }
      if id !in db.operators {
        return 500;
      }
      db := db.(operators := db.operators[id := Overwrite(db.operators[id], Operators.Changes(p))]);
      return 201;
    }

    method OperatorDestroy(id: Id) returns (status: int)
      requires Valid()
      modifies this
      ensures Reply(status, db) == Operators.Destroy(old(db), id)
      ensures Valid()
    {
      Operators.DestroyPreserves(db, id);
      if id !in db.operators {
        return 404;
      }
      if !Operators.Deletable(db, id) {
        return 500;
      }
      db := db.(operators := db.operators - {id});
      return 200;
    }

    // ---- SalesTypeController ----

    method SalesTypeStore(p: Payload) returns (status: int)
      requires Valid()
      modifies this
      ensures Reply(status, db) == SalesTypes.Store(old(db), p)
      ensures Valid()
    {
      SalesTypes.StorePreserves(db, p);
      if !Passes(SalesTypeStoreRules, p, db) {
        return 500;
      }
      db := SalesTypes.WithSalesType(db, p);
      return 201;
    }

    method SalesTypeUpdate(id: Id, p: Payload) returns (status: int)
      requires Valid()
      modifies this
      ensures Reply(status, db) == SalesTypes.Update(old(db), id, p)
      ensures Valid()
    {
      SalesTypes.UpdatePreserves(db, id, p);
      if id !in db.salesTypes {
        return 404;
      }
      if !Passes(SalesTypeUpdateRules, p, db) {
        return 500;
      }
      db := db.(salesTypes := db.salesTypes[id := Overwrite(db.salesTypes[id], Only(Validated(SalesTypeUpdateRules, p), SalesTypeColumns))]);
      return 200;
    }

    method SalesTypeDestroy(id: Id) returns (status: int)
      requires Valid()
      modifies this
      ensures Reply(status, db) == SalesTypes.Destroy(old(db), id)
      ensures Valid()
    {
      SalesTypes.DestroyPreserves(db, id);
      if id !in db.salesTypes {
        return 404;
      }
      if !Unreferenced(db.sales, "sales_type_id", id) {
        return 500;
      }
      db := db.(salesTypes := db.salesTypes - {id});
      return 200;
    }

    // ---- SalesUserController ----

    method SalesUserStore(p: Payload) returns (status: int)
      requires Valid()
      modifies this
      ensures Reply(status, db) == SalesUsers.Store(old(db), p)
      ensures Valid()
    {
      SalesUsers.StorePreserves(db, p);
      if !Passes(SalesUserStoreRules, p, db) {
        return 500;
      }
      db := SalesUsers.WithSalesUser(db, p);
      return 201;
    }

    method SalesUserUpdate(id: Id, p: Payload) returns (status: int)
      requires Valid()
      modifies this
      ensures Reply(status, db) == SalesUsers.Update(old(db), id, p)
      ensures Valid()
    {
      SalesUsers.UpdatePreserves(db, id, p);
      if !Passes(SalesUserUpdateRules, p, db) {
        return 500;
      }
      if id !in db.salesUsers {
        return 500;
      }
      db := db.(salesUsers := db.salesUsers[id := Overwrite(db.salesUsers[id], Only(Validated(SalesUserUpdateRules, p), SalesUserFillable))]);
      return 200;
    }

    method SalesUserDestroy(id: Id) returns (status: int)
      requires Valid()
      modifies this
      ensures Reply(status, db) == SalesUsers.Destroy(old(db), id)
      ensures Valid()
    {
      SalesUsers.DestroyPreserves(db, id);
      if id !in db.salesUsers {
        return 404;
      }
      if !Unreferenced(db.sales, "sales_user_id", id) {
        return 500;
      }
      db := db.(salesUsers := db.salesUsers - {id});
      return 200;
    }

    // ---- TypificationController ----

    method TypificationStore(p: Payload) returns (status: int)
      requires Valid()
      modifies this
      ensures Reply(status, db) == Typifications.Store(old(db), p)
      ensures Valid()
    {
      Typifications.StorePreserves(db, p);
      if !Passes(TypificationStoreRules, p, db) {
        return 500;
      }
      db := Typifications.WithTypification(db, p);
      return 201;
    }

    method TypificationUpdate(id: Id, p: Payload) returns (status: int)
      requires Valid()
      modifies this
      ensures Reply(status, db) == Typifications.Update(old(db), id, p)
      ensures Valid()
    {
      Typifications.UpdatePreserves(db, id, p);
      if id !in db.typifications {
        return 404;
      }
      if !Passes(TypificationUpdateRules, p, db) {
        return 500;
      }
      db := db.(typifications := db.typifications[id := Overwrite(db.typifications[id], Only(Validated(TypificationUpdateRules, p), TypificationFillable))]);
      return 200;
    }

    method TypificationDestroy(id: Id) returns (status: int)
      requires Valid()
      modifies this
      ensures Reply(status, db) == Typifications.Destroy(old(db), id)
      ensures Valid()
    {
      Typifications.DestroyPreserves(db, id);
      if id !in db.typifications {
        return 404;
      }
      if !Unreferenced(db.sales, "typification_id", id) {
        return 500;
      }
      db := db.(typifications := db.typifications - {id});
      return 200;
    }

    // ---- SalesController ----

    method SaleStore(p: Payload) returns (status: int)
      requires Valid()
      modifies this
      ensures Reply(status, db) == Sales.Store(old(db), p)
      ensures Valid()
    {
      Sales.StorePreserves(db, p);
      if !Passes(SaleStoreRules, p, db) {
        return 500;
      }
      var row := Sales.NewRow(p);
      if !SaleRowAccepted(row, db.nextSale, db) {
        return 500;
      }
      db := db.(sales := db.sales[db.nextSale := row], nextSale := db.nextSale + 1);
      return 201;
    }

    method SaleUpdate(order: string, p: Payload) returns (status: int)
      requires Valid()
      modifies this
      ensures Reply(status, db) == Sales.Update(old(db), order, p)
      ensures Valid()
    {
      Sales.UpdatePreserves(db, order, p);
      if !Passes(SaleUpdateRules, p, db) {
        return 500;
      }
      var j := Sales.ByOrder(db, order);
      if j.None? {
        return 404;
      }
      var row := Overwrite(db.sales[j.value], Sales.Changes(p));
      if !SaleRowAccepted(row, j.value, db) {
        return 500;
      }
      db := db.(sales := db.sales[j.value := row]);
      return 200;
    }

    method SaleDestroy(order: string) returns (status: int)
      requires Valid()
      modifies this
      ensures Reply(status, db) == Sales.Destroy(old(db), order)
      ensures Valid()
    {
      Sales.DestroyPreserves(db, order);
      var j := Sales.ByOrder(db, order);
      if j.None? {
        return 404;
      }
      if !Unreferenced(db.records, "sales_id", j.value) {
        return 500;
      }
      db := db.(sales := db.sales - {j.value});
      return 200;
    }

    // ---- CustomerRecordController ----

    method RecordStore(p: Payload) returns (status: int)
      requires Valid()
      modifies this
      ensures Reply(status, db) == Records.Store(old(db), p)
      ensures Valid()
    {
      Records.StorePreserves(db, p);
      if !Passes(RecordStoreRules, p, db) {
        return 500;
      }
      var row := Records.NewRow(p);
      if !RecordRowAccepted(row, db) {
        return 500;
      }
      db := db.(records := db.records[db.nextRecord := row], nextRecord := db.nextRecord + 1);
      return 201;
    }

    method RecordUpdate(customer: Id, p: Payload) returns (status: int)
      requires Valid()
      modifies this
      ensures Reply(status, db) == Records.Update(old(db), customer, p)
      ensures Valid()
    {
      Records.UpdatePreserves(db, customer, p);
      if !Passes(RecordUpdateRules, p, db) {
        return 500;
      }
      var j := Records.ByCustomer(db, customer);
      if j.None? {
        return 404;
      }
      var row := Overwrite(db.records[j.value], Records.Changes(p));
      if !RecordRowAccepted(row, db) {
        return 500;
      }
      db := db.(records := db.records[j.value := row]);
      return 200;
    }

    method RecordDestroy(id: Id) returns (status: int)
      requires Valid()
      modifies this
      ensures Reply(status, db) == Records.Destroy(old(db), id)
      ensures Valid()
    {
      Records.DestroyPreserves(db, id);
      if id !in db.records {
        return 404;
      }
      db := db.(records := db.records - {id});
      return 200;
    }
  }
}
