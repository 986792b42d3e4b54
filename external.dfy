/**
 * The boundary of the external KYC service: its request and response records, and the answers the
 * repository's stub service gives. The stub's delay, randomness and logging are not part of this model.
 */
module External {
  import opened Wrappers
  import opened Domain

  datatype ExternalKycRequest = ExternalKycRequest(fullName: string, email: string, phone: string, address: string)

  datatype ExternalKycResponse = ExternalKycResponse(status: string)

  /** The stub's Validate: always a "pending" response and no error. */
  function StubValidate(request: ExternalKycRequest): (r: Result<ExternalKycResponse, Error>)
    ensures r.Success? && r.value.status == "pending"
  {
    Success(ExternalKycResponse("pending"))
  }

  /** The stub's Verify: always "approved"; the randomly drawn status is only logged, never returned. */
  function StubVerify(request: ExternalKycRequest): (r: Result<ExternalKycResponse, Error>)
    ensures r.Success? && r.value.status == "approved"
  {
    Success(ExternalKycResponse("approved"))
  }
}
