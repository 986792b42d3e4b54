/** The customer record and the error values of the registration and KYC workflow. */
module Domain {

  /**
   * The errors the workflow can return. KycFailed is the package-level sentinel ErrKYCFailed;
   * VerificationFailed is the separate error that VerifyCustomerKYC creates afresh with the same text;
   * External is whatever the external KYC service reports.
   */
  datatype Error = CustomerNotFound | CustomerExists | KycFailed | VerificationFailed | External(message: string)

  /** The text each error carries. */
  function Message(e: Error): string {
    match e
    case CustomerNotFound => "customer not found"
    case CustomerExists => "customer already exists"
    case KycFailed => "KYC validation failed"
    case VerificationFailed => "KYC validation failed"
    case External(m) => m
  }

  /** Everything about a customer except the KYC status, which the workflow updates. */
  datatype Details = Details(id: string, firstName: string, lastName: string, email: string, phone: string, address: string)

  /** A customer; shared by reference, as the Go code passes *domain.Customer around. */
  class Customer {
    var id: string
    var firstName: string
    var lastName: string
    var email: string
    var phone: string
    var address: string
    var kycStatus: string

    /** A composite literal: the KYC status starts as Go's empty string. */
    constructor (id: string, firstName: string, lastName: string, email: string, phone: string, address: string)
      ensures Profile() == Details(id, firstName, lastName, email, phone, address)
      ensures kycStatus == ""
    {
      this.id := id;
      this.firstName := firstName;
      this.lastName := lastName;
      this.email := email;
      this.phone := phone;
      this.address := address;
      this.kycStatus := "";
    }

    function Profile(): Details
      reads this
    {
      Details(id, firstName, lastName, email, phone, address)
    }
  }
}
