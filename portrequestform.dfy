/** The user's "New Port Access Request" form: validation of the typed port
    and service, and the submit sequence that sends the request and clears
    the form. */
module PortRequestForm {
  import opened Common
  import opened JsString

  const MinPort := 1
  const MaxPort := 65535
  const PortError := "Port must be between 1 and 65535"
  const ServiceError := "Service name is required"
  const SubmitFailed := "Failed to submit request"

  /** The three text inputs, as typed. */
  datatype FormData = FormData(port: string, service: string, reason: string)

  /** The form's initial contents and what it is reset to. */
  const EmptyForm := FormData("", "", "")

  /** The body of `requestAPI.createRequest`. */
  datatype RequestPayload = RequestPayload(port: int, service: string, reason: string)

  /** The name of an input, as `handleChange` reads it from `e.target.name`. */
  datatype Field = PortField | ServiceField | ReasonField

  /** A parsed port that is a number within 1..65535 (NaN is not). */
  predicate PortInRange(p: Option<int>) {
    p.Some? && MinPort <= p.value <= MaxPort
  }

  /** `validateForm`: the error it reports, or `None` when the form is valid.
      The port is checked first, so a bad port hides a blank service. */
  function ValidateForm(form: FormData): (err: Option<string>)
    ensures err.None? <==> PortInRange(ParseInt(form.port)) && !IsBlank(form.service)
    ensures err == Some(PortError) <==> !PortInRange(ParseInt(form.port))
    ensures err == Some(ServiceError) <==> PortInRange(ParseInt(form.port)) && IsBlank(form.service)
  {
    if !PortInRange(ParseInt(form.port)) then Some(PortError)
    else if IsBlank(form.service) then Some(ServiceError)
    else None
  }

  /** A port typed as the decimal string of `n` passes exactly when `n` is in
      1..65535 and the service is not blank; no length limit is checked. */
  lemma ValidDecimalPort(n: int, service: string, reason: string)
    ensures ValidateForm(FormData(IntToString(n), service, reason)).None?
            <==> MinPort <= n <= MaxPort && !IsBlank(service)
  {
    ParseIntRoundTrip(n);
  }

  /** The bounds themselves: 0 and 65536 are rejected, 1 and 65535 accepted. */
  lemma PortBounds(service: string, reason: string)
    requires !IsBlank(service)
    ensures ValidateForm(FormData("0", service, reason)) == Some(PortError)
    ensures ValidateForm(FormData("65536", service, reason)) == Some(PortError)
    ensures ValidateForm(FormData("1", service, reason)).None?
    ensures ValidateForm(FormData("65535", service, reason)).None?
  {
    assert IntToString(0) == "0";
    ValidDecimalPort(0, service, reason);
    assert IntToString(1) == "1";
    ValidDecimalPort(1, service, reason);
    BoundStrings();
    ValidDecimalPort(65535, service, reason);
    ValidDecimalPort(65536, service, reason);
  }

  /** The decimal strings of the two upper bounds. */
  lemma BoundStrings()
    ensures IntToString(65535) == "65535" && IntToString(65536) == "65536"
  {
    assert NatToString(6) == "6";
    assert NatToString(65) == "65";
    assert NatToString(655) == "655";
    assert NatToString(6553) == "6553";
  }

  /** A port text with no number at its start (NaN) is rejected with the port
      error, whatever the service. */
  lemma NaNPortRejected(form: FormData)
    requires ParseInt(form.port).None?
    ensures ValidateForm(form) == Some(PortError)
  {
  }

  /** `parseInt` reads only the leading number: a port in range followed by
      text that starts with no digit, such as "8080abc", is accepted. */
  lemma TrailingTextAccepted(n: int, rest: string, service: string, reason: string)
    requires MinPort <= n <= MaxPort
    requires rest == [] || !('0' <= rest[0] <= '9')
    requires !IsBlank(service)
    ensures ValidateForm(FormData(IntToString(n) + rest, service, reason)).None?
  {
    ParseIntPrefix(n, rest);
  }

  /** `{ ...formData, [name]: value }`. */
  function WithField(form: FormData, field: Field, value: string): (r: FormData)
    ensures field == PortField ==> r == form.(port := value)
    ensures field == ServiceField ==> r == form.(service := value)
    ensures field == ReasonField ==> r == form.(reason := value)
  {
    match field
    case PortField => form.(port := value)
    case ServiceField => form.(service := value)
    case ReasonField => form.(reason := value)
  }

  /** A second edit of the same input overwrites the first. */
  lemma WithFieldOverwrites(form: FormData, field: Field, first: string, second: string)
    ensures WithField(WithField(form, field, first), field, second) == WithField(form, field, second)
  {
  }

  /** Edits of different inputs do not interfere: their order does not matter. */
  lemma WithFieldCommutes(form: FormData, f: Field, a: string, g: Field, b: string)
    requires f != g
    ensures WithField(WithField(form, f, a), g, b) == WithField(WithField(form, g, b), f, a)
  {
  }

  /** The component's state: the form, the spinner flag and the alert text. */
  class PortRequestFormState {
    var formData: FormData
    var loading: bool
    var error: string

    constructor ()
      ensures formData == EmptyForm && !loading && error == ""
    {
      formData := EmptyForm;
      loading := false;
      error := "";
    }

    /** `handleChange`: one input changes, nothing else. */
    method HandleChange(field: Field, value: string)
      modifies this
      ensures formData == WithField(old(formData), field, value)
      ensures loading == old(loading) && error == old(error)
    {
      formData := WithField(formData, field, value);
    }

    /** `handleSubmit`, with `reply` the outcome of `createRequest`. Returns the
        payload sent (`None` when nothing was sent) and whether the dialog was
        closed (`onSuccess` and `onHide` called). The alert is shown, with a
        non-empty error, exactly when the dialog stays open. */
    method HandleSubmit(reply: Reply) returns (sent: Option<RequestPayload>, closed: bool)
      modifies this
      ensures ValidateForm(old(formData)).Some? ==>
                sent.None? && !closed && error == ValidateForm(old(formData)).value
                && formData == old(formData) && loading == old(loading)
      ensures ValidateForm(old(formData)).None? ==>
                sent == Some(RequestPayload(ParseInt(old(formData).port).value,
                                            old(formData).service, old(formData).reason))
                && !loading
      ensures ValidateForm(old(formData)).None? && reply.Ok? ==>
                closed && formData == EmptyForm && error == ""
      ensures ValidateForm(old(formData)).None? && reply.Failed? ==>
                !closed && formData == old(formData)
                && error == FailureText(reply.message, SubmitFailed)
      ensures error != "" <==> !closed
    {
      error := "";
      closed := false;
      var invalid := ValidateForm(formData);
      if invalid.Some? {
        error := invalid.value;
        sent := None;
        return;
      }
      loading := true;
      sent := Some(RequestPayload(ParseInt(formData.port).value, formData.service, formData.reason));
      if reply.Ok? {
        formData := EmptyForm;
        closed := true;
      } else {
        error := FailureText(reply.message, SubmitFailed);
      }
      loading := false;
    }
  }
}
