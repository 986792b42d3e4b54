/** The customer service: registration with a duplicate check and KYC validation, and verification. */
module Application {
  import opened Wrappers
  import opened Domain
  import opened External
  import opened Repository
  import opened Kyc

  class CustomerService {
    const kycService: KycAdapter
    const customerRepository: CustomerRepository

    /** NewCustomerService. */
    constructor (kycService: KycAdapter, customerRepository: CustomerRepository)
      ensures this.kycService == kycService && this.customerRepository == customerRepository
    {
      this.kycService := kycService;
      this.customerRepository := customerRepository;
    }

    /**
     * RegisterCustomer. A customer already stored under this email: ErrCustomerExists, nothing
     * validated, nothing changed. Otherwise the status becomes "pending", ValidateKYC runs, and only
     * if it returns nil is the customer saved under its email. `validateCalled` records whether
     * ValidateKYC was called.
     */
    method RegisterCustomer(customer: Customer) returns (err: Option<Error>, ghost validateCalled: bool)
      modifies customer, customerRepository
      ensures customer.Profile() == old(customer.Profile())
      ensures old(customer.email in customerRepository.customers) ==>
        && err == Some(CustomerExists)
        && !validateCalled
        && customer.kycStatus == old(customer.kycStatus)
        && customerRepository.customers == old(customerRepository.customers)
      ensures old(customer.email !in customerRepository.customers) ==>
        && validateCalled
        && customer.kycStatus == "pending"
        && err == ValidateOutcome(kycService.validate(RequestFor(customer)))
        && customerRepository.customers ==
             if err == None then old(customerRepository.customers)[customer.email := customer]
             else old(customerRepository.customers)
    {
      validateCalled := false;
      var existing := customerRepository.FindByEmail(customer.email);
      if existing.Success? {
        return Some(CustomerExists), validateCalled;
      }

      customer.kycStatus := "pending";

      validateCalled := true;
      err := kycService.ValidateKYC(customer);
      if err.Some? {
        return err, validateCalled;
      }

      err := customerRepository.Save(customer);
      if err.Some? {
        return err, validateCalled;
      }

      return None, validateCalled;
    }

    /** VerifyRegisteredCustomer: exactly what the KYC service's VerifyCustomerKYC does and returns. */
    method VerifyRegisteredCustomer(numRequest: int, customer: Customer, arrivals: seq<Outcome>) returns (err: Option<Error>)
      requires numRequest >= 0 && |arrivals| == numRequest
      modifies customer
      ensures customer.Profile() == old(customer.Profile())
      ensures err == VerifyOutcome(arrivals)
      ensures customer.kycStatus == if err == None then "approved" else old(customer.kycStatus)
    {
      err := kycService.VerifyCustomerKYC(numRequest, customer, arrivals);
      if err.Some? {
        return err;
      }
      return None;
    }
  }

  /**
   * The registration test, against the stub service: the first registration succeeds with status
   * "pending", calls ValidateKYC and stores that very customer; a second registration of the same
   * email is refused without calling ValidateKYC.
   */
  method RegisterScenario() returns (first: Option<Error>, second: Option<Error>, customer: Customer,
                                     stored: Result<Customer, Error>, ghost firstCalled: bool, ghost secondCalled: bool)
    ensures first == None && firstCalled
    ensures customer.kycStatus == "pending"
    ensures stored == Success(customer)
    ensures second == Some(CustomerExists) && !secondCalled
  {
    var repo := new CustomerRepository();
    var adapter := new KycAdapter(StubValidate);
    var service := new CustomerService(adapter, repo);
    customer := new Customer("", "John", "Doe", "john.doe@example.com", "1234567890", "123 Main St");
    first, firstCalled := service.RegisterCustomer(customer);
    stored := repo.FindByEmail("john.doe@example.com");
    var again := new Customer("", "Jane", "Doe", "john.doe@example.com", "0987654321", "9 Side St");
    second, secondCalled := service.RegisterCustomer(again);
  }

  /**
   * The verify command after a registration: the customer found by email is the stored object
   * itself, so approving it also approves what the repository holds.
   */
  method VerifyScenario(numRequest: int, arrivals: seq<Outcome>) returns (err: Option<Error>, stored: Result<Customer, Error>)
    requires numRequest > 0 && |arrivals| == numRequest
    requires forall i :: 0 <= i < |arrivals| ==> arrivals[i] == StubVerify(ExternalKycRequest("John Doe", "john.doe@example.com", "1234567890", "123 Main St"))
    ensures err == None
    ensures stored.Success? && stored.value.kycStatus == "approved"
  {
    var repo := new CustomerRepository();
    var adapter := new KycAdapter(StubValidate);
    var service := new CustomerService(adapter, repo);
    var customer := new Customer("", "John", "Doe", "john.doe@example.com", "1234567890", "123 Main St");
    ghost var called;
    err, called := service.RegisterCustomer(customer);
    var found := repo.FindByEmail("john.doe@example.com");
    StubVerifySucceeds(numRequest, RequestFor(customer), arrivals);
    err := service.VerifyRegisteredCustomer(numRequest, found.value, arrivals);
    stored := repo.FindByEmail("john.doe@example.com");
  }
}
