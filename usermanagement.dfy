/** The administrator's user list: the search box over it and the
    "Manage Ports" dialog that whitelists, blacklists or removes a port for
    one user. */
module UserManagement {
  import opened Common
  import opened JsString
  import opened Seqs

  /** A user as the backend lists it; a missing field is `None`. */
  datatype User = User(id: int, username: Option<string>, email: Option<string>, role: Option<string>)

  /** The dialog's inputs: the port as typed and the chosen radio value
      ("whitelist", "blacklist" or "remove"). */
  datatype PortData = PortData(port: string, action: string)

  /** What the dialog opens with. */
  const DefaultPortData := PortData("", "whitelist")

  /** The arguments of `adminAPI.managePort`; `port` is `parseInt` of the
      typed text and may be NaN (`None`). */
  datatype ManagePortCall = ManagePortCall(userId: int, port: Option<int>, action: string)

  /** The search predicate for a lower-cased `term`. */
  predicate UserMatches(u: User, term: string) {
    TextFieldIncludes(u.username, term) || TextFieldIncludes(u.email, term) || TextFieldIncludes(u.role, term)
  }

  /** `filterUsers`: a blank term keeps every user; any other term, lower-cased
      and not trimmed, keeps the users whose username, email or role includes
      it, in their order. */
  function FilterUsers(users: seq<User>, searchTerm: string): (r: seq<User>)
    ensures IsBlank(searchTerm) ==> r == users
    ensures IsSubsequence(r, users)
    ensures !IsBlank(searchTerm) ==>
              forall x :: multiset(r)[x] == if UserMatches(x, Lower(searchTerm)) then multiset(users)[x] else 0
  {
    if IsBlank(searchTerm) then
      SubsequenceOfSelf(users);
      users
    else
      var term := Lower(searchTerm);
      Filter(x => UserMatches(x, term), users)
  }

  /** A user of the list is shown exactly when the term is blank or the user
      matches it. */
  lemma FilterUsersKeeps(users: seq<User>, searchTerm: string, x: User)
    requires x in users
    ensures x in FilterUsers(users, searchTerm) <==> IsBlank(searchTerm) || UserMatches(x, Lower(searchTerm))
  {
    if !IsBlank(searchTerm) {
      assert multiset(users)[x] > 0;
      if x in FilterUsers(users, searchTerm) {
        assert multiset(FilterUsers(users, searchTerm))[x] > 0;
      }
    }
  }

  /** Searching is case-insensitive on the fields: "ADMIN" finds role "admin". */
  lemma RoleSearchIgnoresCase(id: int)
    ensures UserMatches(User(id, None, None, Some("admin")), Lower("ADMIN"))
  {
    assert Lower("ADMIN") == "admin";
    assert Lower("admin") == "admin";
    assert Contains("admin", "admin");
  }

  /** The guard and the arguments of `handlePortAction`: nothing is sent with
      no selected user or an empty port text; otherwise the selected user's
      id, `parseInt` of the text (not range-checked) and the chosen action. */
  function PortActionCall(selected: Option<User>, data: PortData): (c: Option<ManagePortCall>)
    ensures c.None? <==> selected.None? || data.port == ""
    ensures c.Some? ==> c.value.userId == selected.value.id && c.value.action == data.action
    ensures c.Some? ==> c.value.port == ParseInt(data.port)
  {
    if selected.None? || data.port == "" then None
    else Some(ManagePortCall(selected.value.id, ParseInt(data.port), data.action))
  }

  /** No range check: a port beyond 65535 is sent as typed. */
  lemma OutOfRangePortIsSent(u: User, action: string)
    ensures PortActionCall(Some(u), PortData("70000", action)) == Some(ManagePortCall(u.id, Some(70000), action))
  {
    assert NatToString(7) == "7";
    assert NatToString(70) == "70";
    assert NatToString(700) == "700";
    assert NatToString(7000) == "7000";
    assert IntToString(70000) == "70000";
    ParseIntRoundTrip(70000);
  }

  /** Any non-empty text made only of whitespace passes the guard and is
      sent as NaN. */
  lemma BlankPortIsSentAsNaN(u: User, text: string, action: string)
    requires text != [] && IsBlank(text)
    ensures PortActionCall(Some(u), PortData(text, action)) == Some(ManagePortCall(u.id, None, action))
  {
    BlankTrimsToEmpty(text);
  }

  /** The component's state. `filtered` is what the table shows; the effect on
      `[searchTerm, users]` keeps it equal to the filter of the two. */
  class UserManagementView {
    var users: seq<User>
    var filtered: seq<User>
    var searchTerm: string
    var showPortModal: bool
    var selectedUser: Option<User>
    var portData: PortData

    ghost predicate Valid()
      reads this`users, this`filtered, this`searchTerm
    {
      filtered == FilterUsers(users, searchTerm)
    }

    constructor ()
      ensures Valid()
      ensures users == [] && filtered == [] && searchTerm == ""
      ensures !showPortModal && selectedUser.None? && portData == DefaultPortData
    {
      users, filtered, searchTerm := [], [], "";
      showPortModal, selectedUser, portData := false, None, DefaultPortData;
    }

    /** `fetchUsers` resolved with `response`: the list is stored (and shown
        unfiltered for a moment), then the filter effect runs. */
    method Loaded(response: seq<User>)
      modifies this`users, this`filtered
      ensures Valid()
      ensures users == response && filtered == FilterUsers(response, searchTerm)
    {
      users := response;
      filtered := FilterUsers(users, searchTerm);
    }

    /** Typing in the search box; the filter effect runs. */
    method SetSearchTerm(term: string)
      modifies this`searchTerm, this`filtered
      ensures Valid()
      ensures searchTerm == term && filtered == FilterUsers(users, term)
    {
      searchTerm := term;
      filtered := FilterUsers(users, searchTerm);
    }

    /** `handleManagePorts`: the dialog opens for `user` with the default
        port data. */
    method HandleManagePorts(user: User)
      requires Valid()
      modifies this`selectedUser, this`showPortModal, this`portData
      ensures Valid()
      ensures selectedUser == Some(user) && showPortModal && portData == DefaultPortData
    {
      selectedUser := Some(user);
      showPortModal := true;
      portData := DefaultPortData;
    }

    /** Typing in the port input. */
    method SetPortText(text: string)
      requires Valid()
      modifies this`portData
      ensures Valid()
      ensures portData == old(portData).(port := text)
    {
      portData := portData.(port := text);
    }

    /** Choosing one of the Whitelist / Blacklist / Remove radio buttons. */
    method SetPortAction(action: string)
      requires Valid()
      modifies this`portData
      ensures Valid()
      ensures portData == old(portData).(action := action)
    {
      portData := portData.(action := action);
    }

    /** The dialog's Cancel button. */
    method ClosePortModal()
      requires Valid()
      modifies this`showPortModal
      ensures Valid()
      ensures !showPortModal
    {
      showPortModal := false;
    }

    /** `handlePortAction`, with `reply` the outcome of `managePort`. Returns
        the call sent and whether the users are fetched again. */
    method HandlePortAction(reply: Reply) returns (call: Option<ManagePortCall>, refetch: bool)
      requires Valid()
      modifies this`showPortModal
      ensures Valid()
      ensures call == PortActionCall(selectedUser, portData)
      ensures call.None? ==> !refetch && showPortModal == old(showPortModal)
      ensures call.Some? && reply.Ok? ==> refetch && !showPortModal
      ensures call.Some? && reply.Failed? ==> !refetch && showPortModal == old(showPortModal)
    {
      call := PortActionCall(selectedUser, portData);
      refetch := false;
      if call.Some? && reply.Ok? {
        showPortModal := false;
        refetch := true;
      }
    }
  }
}
