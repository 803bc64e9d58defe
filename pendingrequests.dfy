/** The administrator's list of pending requests: the search box over it and
    the approve/deny dialog. */
module PendingRequests {
  import opened Common
  import opened JsString
  import opened Seqs

  /** A pending request as the backend lists it; a missing field is `None`. */
  datatype Request = Request(id: int, username: Option<string>, port: Option<int>, service: Option<string>)

  /** The decision a button in a row asks for. */
  datatype Decision = Approve | Deny

  /** `{ ...request, action }`: the request the dialog is about. */
  datatype Selection = Selection(request: Request, action: Decision)

  /** The call `submitAction` makes through `requestAPI`. */
  datatype DecisionCall = ApproveCall(id: int, comment: string) | DenyCall(id: int, comment: string)

  /** The search predicate for a lower-cased `term`: it occurs in the
      lower-cased username, the port's decimal string or the lower-cased
      service. */
  predicate RequestMatches(req: Request, term: string) {
    || TextFieldIncludes(req.username, term)
    || (req.port.Some? && Contains(IntToString(req.port.value), term))
    || TextFieldIncludes(req.service, term)
  }

  /** `filterRequests`: a blank search term keeps the list as fetched; any
      other term, lower-cased but not trimmed, keeps the matching requests in
      their order. */
  function FilterRequests(requests: seq<Request>, searchTerm: string): (r: seq<Request>)
    ensures IsBlank(searchTerm) ==> r == requests
    ensures IsSubsequence(r, requests)
    ensures !IsBlank(searchTerm) ==>
              forall x :: multiset(r)[x] == if RequestMatches(x, Lower(searchTerm)) then multiset(requests)[x] else 0
  {
    if IsBlank(searchTerm) then
      SubsequenceOfSelf(requests);
      requests
    else
      var term := Lower(searchTerm);
      Filter(x => RequestMatches(x, term), requests)
  }

  /** A request of the list is shown exactly when the term is blank or the
      request matches it. */
  lemma FilterRequestsKeeps(requests: seq<Request>, searchTerm: string, x: Request)
    requires x in requests
    ensures x in FilterRequests(requests, searchTerm)
            <==> IsBlank(searchTerm) || RequestMatches(x, Lower(searchTerm))
  {
    if !IsBlank(searchTerm) {
      assert multiset(requests)[x] > 0;
      if x in FilterRequests(requests, searchTerm) {
        assert multiset(FilterRequests(requests, searchTerm))[x] > 0;
      }
    }
  }

  /** A request with none of the three fields never matches a term. */
  lemma MissingFieldsNeverMatch(id: int, term: string)
    ensures !RequestMatches(Request(id, None, None, None), term)
  {
  }

  /** The term is not trimmed: " 22" does not find a request on port 22 whose
      username and service contain no space. */
  lemma SpacesAreSearchedFor()
    ensures !RequestMatches(Request(1, Some("bob"), Some(22), Some("ssh")), Lower(" 22"))
  {
    assert Lower(" 22") == " 22";
    assert NatToString(2) == "2";
    assert IntToString(22) == "22";
    assert Lower("bob") == "bob";
    assert Lower("ssh") == "ssh";
    NoSpaceNoMatch("bob", " 22", 0);
    NoSpaceNoMatch("22", " 22", 0);
    NoSpaceNoMatch("ssh", " 22", 0);
  }

  /** A string without a space does not include a term that has one, at
      whatever position `j` of the term the space stands. */
  lemma NoSpaceNoMatch(s: string, t: string, j: int)
    requires 0 <= j < |t| && t[j] == ' '
    requires forall i :: 0 <= i < |s| ==> s[i] != ' '
    ensures !Contains(s, t)
  {
    ContainsIffOccurs(s, t);
  }

  /** The component's state. `filtered` is what the table shows; the effect on
      `[searchTerm, requests]` keeps it equal to the filter of the two. */
  class PendingRequestsView {
    var requests: seq<Request>
    var filtered: seq<Request>
    var searchTerm: string
    var showModal: bool
    var selected: Option<Selection>
    var adminComment: string
    var actionLoading: bool

    ghost predicate Valid()
      reads this`requests, this`filtered, this`searchTerm
    {
      filtered == FilterRequests(requests, searchTerm)
    }

    constructor ()
      ensures Valid()
      ensures requests == [] && filtered == [] && searchTerm == ""
      ensures !showModal && selected.None? && adminComment == "" && !actionLoading
    {
      requests, filtered, searchTerm := [], [], "";
      showModal, selected, adminComment, actionLoading := false, None, "", false;
    }

    /** `fetchPendingRequests` resolved with `response`; the filter effect
        then runs with the current search term. */
    method Loaded(response: seq<Request>)
      modifies this`requests, this`filtered
      ensures Valid()
      ensures requests == response && filtered == FilterRequests(response, searchTerm)
    {
      requests := response;
      filtered := FilterRequests(requests, searchTerm);
    }

    /** Typing in the search box; the filter effect runs. */
    method SetSearchTerm(term: string)
      modifies this`searchTerm, this`filtered
      ensures Valid()
      ensures searchTerm == term && filtered == FilterRequests(requests, term)
    {
      searchTerm := term;
      filtered := FilterRequests(requests, searchTerm);
    }

    /** `handleAction`: a row's Approve or Deny button opens the dialog for
        that request with an empty comment. */
    method HandleAction(request: Request, action: Decision)
      requires Valid()
      modifies this`selected, this`showModal, this`adminComment
      ensures Valid()
      ensures selected == Some(Selection(request, action)) && showModal && adminComment == ""
    {
      selected := Some(Selection(request, action));
      showModal := true;
      adminComment := "";
    }

    /** Typing in the comment box. */
    method SetComment(comment: string)
      requires Valid()
      modifies this`adminComment
      ensures Valid()
      ensures adminComment == comment
    {
      adminComment := comment;
    }

    /** The dialog's Cancel button. */
    method CloseModal()
      requires Valid()
      modifies this`showModal
      ensures Valid()
      ensures !showModal
    {
      showModal := false;
    }

    /** `submitAction`, with `reply` the outcome of the call it makes. Returns
        the call sent and whether the list is fetched again. */
    method SubmitAction(reply: Reply) returns (call: Option<DecisionCall>, refetch: bool)
      requires Valid()
      modifies this`showModal, this`actionLoading
      ensures Valid()
      // with nothing selected, nothing happens
      ensures old(selected).None? ==>
                call.None? && !refetch && showModal == old(showModal) && actionLoading == old(actionLoading)
      // a denial with a blank comment is refused: nothing is sent, the dialog stays
      ensures old(selected).Some? && old(selected).value.action == Deny && IsBlank(old(adminComment)) ==>
                call.None? && !refetch && showModal == old(showModal) && !actionLoading
      // otherwise the comment is sent as typed
      ensures old(selected).Some? && old(selected).value.action == Approve ==>
                call == Some(ApproveCall(old(selected).value.request.id, old(adminComment)))
      ensures old(selected).Some? && old(selected).value.action == Deny && !IsBlank(old(adminComment)) ==>
                call == Some(DenyCall(old(selected).value.request.id, old(adminComment)))
      ensures call.Some? ==> !actionLoading
      ensures call.Some? && reply.Ok? ==> !showModal && refetch
      ensures call.Some? && reply.Failed? ==> showModal == old(showModal) && !refetch
    {
      call, refetch := None, false;
      if selected.None? {
        return;
      }
      actionLoading := true;
      var sel := selected.value;
      if sel.action == Approve {
        call := Some(ApproveCall(sel.request.id, adminComment));
      } else {
        if IsBlank(adminComment) {
          actionLoading := false;
          return;
        }
        call := Some(DenyCall(sel.request.id, adminComment));
      }
      if reply.Ok? {
        showModal := false;
        refetch := true;
      }
      actionLoading := false;
    }
  }
}
