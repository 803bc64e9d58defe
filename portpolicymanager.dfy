/** The administrator's port policies: the list, the global blacklist selected
    out of it, and the "Create New Policy" form with its default contents. */
module PortPolicyManager {
  import opened Common
  import opened Seqs

  /** A policy's `userId` as the backend may send it: absent or null, a
      number, or a string. */
  datatype UserRef = NoUser | UserNumber(n: int) | UserText(s: string)

  /** JavaScript truthiness of a `userId`. */
  predicate IsSetUser(u: UserRef) {
    match u
    case NoUser => false
    case UserNumber(n) => n != 0
    case UserText(s) => s != ""
  }

  /** A policy as listed; `policyType` is the `type` field. */
  datatype Policy = Policy(id: int, port: int, policyType: string, userId: UserRef)

  /** `p.type === 'blacklist' && !p.userId`. */
  predicate IsGlobalBlacklist(p: Policy) {
    p.policyType == "blacklist" && !IsSetUser(p.userId)
  }

  /** The selection made in `fetchPolicies`: the global blacklist policies, in
      the order of the fetched list and with their multiplicities. */
  function GlobalBlacklist(policies: seq<Policy>): (r: seq<Policy>)
    ensures IsSubsequence(r, policies)
    ensures forall p :: multiset(r)[p] == if IsGlobalBlacklist(p) then multiset(policies)[p] else 0
  {
    Filter(IsGlobalBlacklist, policies)
  }

  /** A fetched policy is in the global blacklist exactly when it is a
      blacklist policy with no user. */
  lemma GlobalBlacklistKeeps(policies: seq<Policy>, p: Policy)
    requires p in policies
    ensures p in GlobalBlacklist(policies) <==> p.policyType == "blacklist" && !IsSetUser(p.userId)
  {
    assert multiset(policies)[p] > 0;
    if p in GlobalBlacklist(policies) {
      assert multiset(GlobalBlacklist(policies))[p] > 0;
    }
  }

  /** No whitelist policy and no policy applied to a user is in the global
      blacklist, and everything in it was fetched. */
  lemma GlobalBlacklistOnlyGlobal(policies: seq<Policy>, i: int)
    requires 0 <= i < |GlobalBlacklist(policies)|
    ensures GlobalBlacklist(policies)[i].policyType != "whitelist"
    ensures !IsSetUser(GlobalBlacklist(policies)[i].userId)
    ensures GlobalBlacklist(policies)[i] in policies
  {
    var r := GlobalBlacklist(policies);
    assert multiset(r)[r[i]] > 0;
  }

  /** The "Type" badge of the policy table. */
  function TypeVariant(p: Policy): (v: Variant)
    ensures v == Success <==> p.policyType == "whitelist"
    ensures v != Success ==> v == Danger
  {
    if p.policyType == "whitelist" then Success else Danger
  }

  /** Every policy of the global blacklist carries the danger badge in the
      table of all policies too. */
  lemma GlobalBlacklistIsDanger(policies: seq<Policy>, i: int)
    requires 0 <= i < |GlobalBlacklist(policies)|
    ensures TypeVariant(GlobalBlacklist(policies)[i]) == Danger
  {
    GlobalBlacklistOnlyGlobal(policies, i);
  }

  /** The dialog's inputs, all as strings. */
  datatype PolicyForm = PolicyForm(port: string, policyType: string, userId: string, reason: string)

  /** What the form starts with and is reset to after a create. */
  const DefaultForm := PolicyForm("", "whitelist", "", "")

  /** The input an `onChange` handler writes. */
  datatype Field = PortField | TypeField | UserField | ReasonField

  /** `{ ...formData, [field]: value }`. */
  function WithField(form: PolicyForm, field: Field, value: string): (r: PolicyForm)
    ensures field == PortField ==> r == form.(port := value)
    ensures field == TypeField ==> r == form.(policyType := value)
    ensures field == UserField ==> r == form.(userId := value)
    ensures field == ReasonField ==> r == form.(reason := value)
  {
    match field
    case PortField => form.(port := value)
    case TypeField => form.(policyType := value)
    case UserField => form.(userId := value)
    case ReasonField => form.(reason := value)
  }

  /** A second edit of the same input overwrites the first. */
  lemma WithFieldOverwrites(form: PolicyForm, field: Field, first: string, second: string)
    ensures WithField(WithField(form, field, first), field, second) == WithField(form, field, second)
  {
  }

  /** Edits of different inputs do not interfere: their order does not matter. */
  lemma WithFieldCommutes(form: PolicyForm, f: Field, a: string, g: Field, b: string)
    requires f != g
    ensures WithField(WithField(form, f, a), g, b) == WithField(WithField(form, g, b), f, a)
  {
  }

  /** The outcome of a call through an optional endpoint (`adminAPI.f?.()`):
      the endpoint may not exist, in which case the call yields `undefined`
      and nothing is sent. */
  datatype EndpointReply = Missing | Answered(reply: Reply)

  /** The outcome of `getPortPolicies?.()`. */
  datatype FetchReply = NoFetchEndpoint | Fetched(data: seq<Policy>) | FetchFailed

  /** The component's state. `globalBlacklist` is always the selection out of
      `policies` that `fetchPolicies` stores alongside them. */
  class PolicyManagerView {
    var policies: seq<Policy>
    var globalBlacklist: seq<Policy>
    var loading: bool
    var showModal: bool
    var formData: PolicyForm

    ghost predicate Valid()
      reads this`policies, this`globalBlacklist
    {
      globalBlacklist == GlobalBlacklist(policies)
    }

    /** The state before the first fetch. */
    constructor ()
      ensures Valid()
      ensures policies == [] && globalBlacklist == [] && loading && !showModal
      ensures formData == DefaultForm
    {
      policies, globalBlacklist := [], [];
      loading, showModal, formData := true, false, DefaultForm;
    }

    /** `fetchPolicies`: a missing endpoint counts as an empty list; a failed
        fetch leaves both lists as they were. */
    method FetchPolicies(reply: FetchReply)
      requires Valid()
      modifies this`policies, this`globalBlacklist, this`loading
      ensures Valid()
      ensures reply.NoFetchEndpoint? ==> policies == [] && globalBlacklist == []
      ensures reply.Fetched? ==> policies == reply.data && globalBlacklist == GlobalBlacklist(reply.data)
      ensures reply.FetchFailed? ==> policies == old(policies) && globalBlacklist == old(globalBlacklist)
      ensures !loading
    {
      loading := true;
      match reply {
        case NoFetchEndpoint =>
          policies := [];
          globalBlacklist := GlobalBlacklist([]);
        case Fetched(data) =>
          policies := data;
          globalBlacklist := GlobalBlacklist(data);
        case FetchFailed =>
      }
      loading := false;
    }

    /** The "New Policy" button. */
    method OpenModal()
      requires Valid()
      modifies this`showModal
      ensures Valid()
      ensures showModal
    {
      showModal := true;
    }

    /** The Cancel button and the dialog's close button. */
    method CloseModal()
      requires Valid()
      modifies this`showModal
      ensures Valid()
      ensures !showModal
    {
      showModal := false;
    }

    /** One input of the dialog changes. */
    method Edit(field: Field, value: string)
      requires Valid()
      modifies this`formData
      ensures Valid()
      ensures formData == WithField(old(formData), field, value)
    {
      formData := WithField(formData, field, value);
    }

    /** `handleSubmit`: `createPolicy` receives the form unchanged, with the
        port still a string and not range-checked. Unless the call fails, the
        dialog closes, the form is reset and the list is fetched again (also
        when the endpoint is missing and nothing was sent). */
    method HandleSubmit(reply: EndpointReply) returns (sent: Option<PolicyForm>, refetch: bool)
      requires Valid()
      modifies this`showModal, this`formData
      ensures Valid()
      ensures reply.Answered? ==> sent == Some(old(formData))
      ensures reply.Missing? ==> sent.None?
      ensures refetch <==> !(reply.Answered? && reply.reply.Failed?)
      ensures refetch ==> !showModal && formData == DefaultForm
      ensures !refetch ==> showModal == old(showModal) && formData == old(formData)
    {
      sent := if reply.Answered? then Some(formData) else None;
      refetch := false;
      if !(reply.Answered? && reply.reply.Failed?) {
        showModal := false;
        formData := DefaultForm;
        refetch := true;
      }
    }

    /** `handleDelete`: nothing happens unless the confirmation is accepted;
        then `deletePolicy` receives the id (if the endpoint exists) and,
        unless it fails, the list is fetched again. No state changes here. */
    method HandleDelete(policyId: int, confirmed: bool, reply: EndpointReply)
      returns (sent: Option<int>, refetch: bool)
      ensures sent.Some? <==> confirmed && reply.Answered?
      ensures sent.Some? ==> sent.value == policyId
      ensures refetch <==> confirmed && !(reply.Answered? && reply.reply.Failed?)
    {
      sent, refetch := None, false;
      if confirmed {
        if reply.Answered? {
          sent := Some(policyId);
        }
        refetch := !(reply.Answered? && reply.reply.Failed?);
      }
    }
  }
}
