/**
 * The KYC adapter: it maps a customer to the external service's request and turns the service's
 * answers into the customer's KYC status. VerifyCustomerKYC's goroutine fan-out is replaced by
 * `arrivals`: the outcome of each Verify call, in the order the outcomes reach the two channels.
 */
module Kyc {
  import opened Wrappers
  import opened Domain
  import opened External

  type Outcome = Result<ExternalKycResponse, Error>

  /** The external request for a customer: full name is first name, one space, last name. */
  function RequestFor(c: Customer): (r: ExternalKycRequest)
    reads c
    ensures r.email == c.email && r.phone == c.phone && r.address == c.address
    ensures |r.fullName| == |c.firstName| + 1 + |c.lastName|
    ensures r.fullName[..|c.firstName|] == c.firstName
    ensures r.fullName[|c.firstName|] == ' '
    ensures r.fullName[|c.firstName| + 1..] == c.lastName
  {
    ExternalKycRequest(c.firstName + " " + c.lastName, c.email, c.phone, c.address)
  }

  /** What ValidateKYC returns for the external service's answer. */
  function ValidateOutcome(reply: Outcome): (err: Option<Error>)
    ensures err == None <==> reply == Success(ExternalKycResponse("pending"))
    ensures reply.Failure? ==> err == Some(reply.error)
    ensures reply.Success? && reply.value.status != "pending" ==> err == Some(KycFailed)
  {
    match reply
    case Failure(e) => Some(e)
    case Success(response) => if response.status == "pending" then None else Some(KycFailed)
  }

  /** The responses sent on the results channel, in arrival order. */
  function Responses(arrivals: seq<Outcome>): (r: seq<ExternalKycResponse>)
    ensures |r| <= |arrivals|
    ensures forall x :: x in r ==> Success(x) in arrivals
    decreases |arrivals|
  {
    if arrivals == [] then []
    else
      var last := arrivals[|arrivals| - 1];
      Responses(arrivals[..|arrivals| - 1]) + if last.Success? then [last.value] else []
  }

  /** The errors sent on the errors channel, in arrival order. */
  function Errors(arrivals: seq<Outcome>): (r: seq<Error>)
    ensures |r| <= |arrivals|
    ensures forall e :: e in r ==> Failure(e) in arrivals
    decreases |arrivals|
  {
    if arrivals == [] then []
    else
      var last := arrivals[|arrivals| - 1];
      Errors(arrivals[..|arrivals| - 1]) + if last.Failure? then [last.error] else []
  }

  /** The status left after draining the results: "" for none, else decided by the last one alone. */
  function FinalStatus(responses: seq<ExternalKycResponse>): (r: string)
    ensures r == "" <==> responses == []
    ensures r == "approved" <==> responses != [] && responses[|responses| - 1].status == "approved"
    ensures r in {"", "approved", "rejected"}
  {
    if responses == [] then ""
    else if responses[|responses| - 1].status == "approved" then "approved"
    else "rejected"
  }

  /** What VerifyCustomerKYC returns: the first error, else nil exactly when the final status is "approved". */
  function VerifyOutcome(arrivals: seq<Outcome>): (r: Option<Error>)
    ensures Errors(arrivals) != [] ==> r == Some(Errors(arrivals)[0])
    ensures r == None ==> Responses(arrivals) != [] && Responses(arrivals)[|Responses(arrivals)| - 1].status == "approved"
    ensures Errors(arrivals) == [] && r != None ==> r == Some(VerificationFailed)
  {
    var errors := Errors(arrivals);
    if errors != [] then Some(errors[0])
    else if FinalStatus(Responses(arrivals)) == "approved" then None
    else Some(VerificationFailed)
  }

  lemma {:induction false} ResponsesAppend(a: seq<Outcome>, b: seq<Outcome>)
    ensures Responses(a + b) == Responses(a) + Responses(b)
    decreases |b|
  {
    if b == [] {
      assert a + b == a;
    } else {
      var b' := b[..|b| - 1];
      assert (a + b)[..|a + b| - 1] == a + b';
      ResponsesAppend(a, b');
    }
  }

  lemma {:induction false} ErrorsAppend(a: seq<Outcome>, b: seq<Outcome>)
    ensures Errors(a + b) == Errors(a) + Errors(b)
    decreases |b|
  {
    if b == [] {
      assert a + b == a;
    } else {
      var b' := b[..|b| - 1];
      assert (a + b)[..|a + b| - 1] == a + b';
      ErrorsAppend(a, b');
    }
  }

  /** Every outcome is either a response or an error. */
  lemma {:induction false} OutcomesSplit(arrivals: seq<Outcome>)
    ensures |Responses(arrivals)| + |Errors(arrivals)| == |arrivals|
    decreases |arrivals|
  {
    if arrivals != [] {
      OutcomesSplit(arrivals[..|arrivals| - 1]);
    }
  }

  /** No error reaches the errors channel exactly when every Verify call succeeded. */
  lemma {:induction false} NoErrorsIffAllSucceed(arrivals: seq<Outcome>)
    ensures Errors(arrivals) == [] <==> forall i :: 0 <= i < |arrivals| ==> arrivals[i].Success?
    decreases |arrivals|
  {
    if arrivals != [] {
      var init := arrivals[..|arrivals| - 1];
      NoErrorsIffAllSucceed(init);
      assert forall i :: 0 <= i < |init| ==> init[i] == arrivals[i];
    }
  }

  /** The first error reported is that of the earliest failed Verify call. */
  lemma {:induction false} FirstErrorIsEarliestFailure(arrivals: seq<Outcome>, j: nat)
    requires j < |arrivals| && arrivals[j].Failure?
    requires forall i :: 0 <= i < j ==> arrivals[i].Success?
    ensures Errors(arrivals) != [] && Errors(arrivals)[0] == arrivals[j].error
  {
    var prefix, rest := arrivals[..j], arrivals[j + 1..];
    assert arrivals == prefix + [arrivals[j]] + rest;
    NoErrorsIffAllSucceed(prefix);
    ErrorsAppend(prefix + [arrivals[j]], rest);
    ErrorsAppend(prefix, [arrivals[j]]);
    assert Errors([arrivals[j]]) == [arrivals[j].error] by {
      assert [arrivals[j]][..0] == [];
    }
  }

  /**
   * VerifyCustomerKYC succeeds exactly when no Verify call failed and the last response drained
   * was "approved"; any failure makes it return an error, whatever the responses were.
   */
  lemma VerifySucceedsIff(arrivals: seq<Outcome>)
    ensures VerifyOutcome(arrivals) == None <==>
      && (forall i :: 0 <= i < |arrivals| ==> arrivals[i].Success?)
      && Responses(arrivals) != []
      && Responses(arrivals)[|Responses(arrivals)| - 1].status == "approved"
  {
    NoErrorsIffAllSucceed(arrivals);
  }

  /** With numRequest == 0 there are no responses, the final status stays "", and the result is an error. */
  lemma NoRequestsFails(numRequest: int, arrivals: seq<Outcome>)
    requires numRequest == 0 && |arrivals| == numRequest
    ensures FinalStatus(Responses(arrivals)) == ""
    ensures VerifyOutcome(arrivals) == Some(VerificationFailed)
  {
  }

  /** Against the stub service, which always answers "approved", verification with numRequest > 0 succeeds. */
  lemma {:induction false} StubVerifySucceeds(numRequest: int, request: ExternalKycRequest, arrivals: seq<Outcome>)
    requires numRequest > 0 && |arrivals| == numRequest
    requires forall i :: 0 <= i < |arrivals| ==> arrivals[i] == StubVerify(request)
    ensures VerifyOutcome(arrivals) == None
  {
    NoErrorsIffAllSucceed(arrivals);
    var init := arrivals[..|arrivals| - 1];
    assert arrivals == init + [arrivals[|arrivals| - 1]];
    ResponsesAppend(init, [arrivals[|arrivals| - 1]]);
    assert Responses([arrivals[|arrivals| - 1]]) == [ExternalKycResponse("approved")] by {
      assert [arrivals[|arrivals| - 1]][..0] == [];
    }
  }

  /** The first drain loop: the status left after ranging over the results channel. */
  method DrainResults(arrivals: seq<Outcome>) returns (finalStatus: string)
    ensures finalStatus == FinalStatus(Responses(arrivals))
  {
    finalStatus := "";
    var i := 0;
    while i < |arrivals|
      invariant 0 <= i <= |arrivals|
      invariant finalStatus == FinalStatus(Responses(arrivals[..i]))
    {
      assert arrivals[..i + 1][..i] == arrivals[..i];
      if arrivals[i].Success? {
        if arrivals[i].value.status == "approved" {
          finalStatus := "approved";
        } else {
          finalStatus := "rejected";
        }
      }
      i := i + 1;
    }
    assert arrivals[..i] == arrivals;
  }

  /** The second drain loop: the first error on the errors channel, if any. */
  method DrainErrors(arrivals: seq<Outcome>) returns (first: Option<Error>)
    ensures first == if Errors(arrivals) == [] then None else Some(Errors(arrivals)[0])
  {
    var i := 0;
    while i < |arrivals|
      invariant 0 <= i <= |arrivals|
      invariant forall k :: 0 <= k < i ==> arrivals[k].Success?
    {
      if arrivals[i].Failure? {
        FirstErrorIsEarliestFailure(arrivals, i);
        return Some(arrivals[i].error);
      }
      i := i + 1;
    }
    NoErrorsIffAllSucceed(arrivals);
    first := None;
  }

  class KycAdapter {
    /** The external service's Validate, as an oracle over the request. */
    const validate: ExternalKycRequest -> Outcome

    /** NewKYCAdapter. */
    constructor (validate: ExternalKycRequest -> Outcome)
      ensures this.validate == validate
    {
      this.validate := validate;
    }

    /**
     * ValidateKYC: send the customer's request; a service error is returned as is, a "pending"
     * answer sets the status to "pending", any other answer is ErrKYCFailed with the status untouched.
     */
    method ValidateKYC(customer: Customer) returns (err: Option<Error>)
      modifies customer
      ensures customer.Profile() == old(customer.Profile())
      ensures err == ValidateOutcome(validate(RequestFor(customer)))
      ensures customer.kycStatus == if err == None then "pending" else old(customer.kycStatus)
    {
      var request := RequestFor(customer);
      var response := validate(request);
      if response.Failure? {
        return Some(response.error);
      }
      if response.value.status == "pending" {
        customer.kycStatus := "pending";
      } else {
        return Some(KycFailed);
      }
      return None;
    }

    /**
     * VerifyCustomerKYC: `arrivals` are the answers to the numRequest Verify calls for
     * RequestFor(customer). The first error wins; otherwise the status becomes "approved" exactly
     * when the last response drained was "approved". A negative numRequest is excluded: making the
     * two channels with a negative capacity panics before any Verify call.
     */
    method VerifyCustomerKYC(numRequest: int, customer: Customer, arrivals: seq<Outcome>) returns (err: Option<Error>)
      requires numRequest >= 0 && |arrivals| == numRequest
      modifies customer
      ensures customer.Profile() == old(customer.Profile())
      ensures err == VerifyOutcome(arrivals)
      ensures customer.kycStatus == if err == None then "approved" else old(customer.kycStatus)
    {
      var finalStatus := DrainResults(arrivals);
      var firstError := DrainErrors(arrivals);
      if firstError.Some? {
        return firstError;
      }
      if finalStatus == "approved" {
        customer.kycStatus := "approved";
        return None;
      }
      return Some(VerificationFailed);
    }
  }
}
