/** The in-memory customer repository: a map from email to customer, without its mutex. */
module Repository {
  import opened Wrappers
  import opened Domain

  class CustomerRepository {
    var customers: map<string, Customer>

    /** NewCustomerRepository: no customers. */
    constructor ()
      ensures customers == map[]
    {
      customers := map[];
    }

    /** Save: store the customer under its current email, replacing any earlier entry; never fails. */
    method Save(customer: Customer) returns (err: Option<Error>)
      modifies this
      ensures customers == old(customers)[customer.email := customer]
      ensures err == None
    {
      customers := customers[customer.email := customer];
      err := None;
    }

    /** FindByEmail: the stored customer, or the "customer not found" error; the map is not changed. */
    method FindByEmail(email: string) returns (r: Result<Customer, Error>)
      ensures email in customers ==> r == Success(customers[email])
      ensures email !in customers ==> r == Failure(CustomerNotFound)
      ensures r.Failure? ==> Message(r.error) == "customer not found"
    {
      if email in customers {
        r := Success(customers[email]);
      } else {
        r := Failure(CustomerNotFound);
      }
    }
  }

  /** A fresh repository finds nothing; after Save it finds the saved customer and still nothing else. */
  method SaveThenFind(customer: Customer, other: string) returns (before: Result<Customer, Error>, found: Result<Customer, Error>, missing: Result<Customer, Error>)
    requires other != customer.email
    ensures before == Failure(CustomerNotFound)
    ensures found == Success(customer)
    ensures missing == Failure(CustomerNotFound)
  {
    var repo := new CustomerRepository();
    before := repo.FindByEmail(customer.email);
    var err := repo.Save(customer);
    found := repo.FindByEmail(customer.email);
    missing := repo.FindByEmail(other);
  }

  /** Saving a second customer with the same email replaces the first. */
  method SaveOverwrites(first: Customer, second: Customer) returns (found: Result<Customer, Error>)
    requires first.email == second.email
    ensures found == Success(second)
  {
    var repo := new CustomerRepository();
    var err := repo.Save(first);
    err := repo.Save(second);
    found := repo.FindByEmail(first.email);
  }
}
