/**
 * The admin screen over the sign-in accounts: the search over the loaded
 * users, its pages, the create form with its validation and the edit dialog
 * with the update it sends. Calls to the accounts API are not modelled:
 * each method takes the API's answer as a parameter and returns the request
 * it would send.
 */
module AdminUsers {
  import opened Wrappers
  import opened Strings
  import opened Seqs
  import opened Tables

  /** An account as the list call returns it; a missing text field reads as
      `""` and `disabled` is already a boolean. */
  datatype AuthUser = AuthUser(uid: string, email: string, displayName: string, role: string, disabled: bool)

  /** The search text the table compares against. */
  function Query(search: string): string {
    Lower(Trim(search))
  }

  /** The match test as written: the e-mail and the name are lower-cased
      before the comparison, the uid is not. */
  predicate MatchesAsWritten(u: AuthUser, q: string) {
    Contains(Lower(u.email), q) || Contains(Lower(u.displayName), q) || Contains(u.uid, q)
  }

  /** `filtered` as written. */
  function FilteredAsWritten(users: seq<AuthUser>, search: string): seq<AuthUser> {
    var q := Query(search);
    if q == "" then users else Filter(users, u => MatchesAsWritten(u, q))
  }

  /** The search as written keeps exactly the users whose e-mail or name
      holds the query without case, or whose uid holds it as typed, in
      their order; a blank search keeps them all. */
  lemma FilteredAsWrittenFacts(users: seq<AuthUser>, search: string)
    ensures Query(search) == "" ==> FilteredAsWritten(users, search) == users
    ensures forall u :: u in FilteredAsWritten(users, search) <==>
      u in users && (Query(search) == "" || MatchesAsWritten(u, Query(search)))
    ensures IsSubsequence(FilteredAsWritten(users, search), users)
  {
    var q := Query(search);
    if q == "" {
      FilterAll(users, (u: AuthUser) => true);
      FilterIsSubsequence(users, (u: AuthUser) => true);
    } else {
      FilterIsSubsequence(users, u => MatchesAsWritten(u, q));
    }
  }

  /** Since the query is lower-cased and the uid is not, searching for a uid
      that holds an upper-case letter does not find its account. */
  lemma ExactUidMissed()
    ensures FilteredAsWritten([AuthUser("A", "", "", "", false)], "A") == []
  {
    var u := AuthUser("A", "", "", "", false);
    assert Trim("A") == "A";
    assert Lower("A") == "a";
    assert !Contains("", "a");
    assert !Contains("A", "a") by {
      assert !StartsWith("A", "a");
      assert "A"[1..] == "";
    }
    assert !MatchesAsWritten(u, "a");
  }

  /** The match test with the uid compared without case, like the other two
      fields. */
  predicate Matches(u: AuthUser, q: string) {
    Contains(Lower(u.email), q) || Contains(Lower(u.displayName), q) || Contains(Lower(u.uid), q)
  }

  function MatchesQuery(q: string): AuthUser -> bool {
    u => Matches(u, q)
  }

  /** `filtered` with the uid compared without case (the correction of the
      uid search): a blank query keeps every user, any other keeps the users
      whose e-mail, name or lower-cased uid contains it. The screen's pages
      are built on this corrected search. */
  function Filtered(users: seq<AuthUser>, search: string): seq<AuthUser> {
    var q := Query(search);
    if q == "" then users else Filter(users, MatchesQuery(q))
  }

  /** The search keeps exactly the matching users, in their order, and a
      blank search keeps them all. */
  lemma FilteredFacts(users: seq<AuthUser>, search: string)
    ensures Query(search) == "" ==> Filtered(users, search) == users
    ensures forall u :: u in Filtered(users, search) <==>
      u in users && (Query(search) == "" || Matches(u, Query(search)))
    ensures IsSubsequence(Filtered(users, search), users)
  {
    var q := Query(search);
    if q == "" {
      FilterAll(users, (u: AuthUser) => true);
      FilterIsSubsequence(users, (u: AuthUser) => true);
    } else {
      FilterIsSubsequence(users, MatchesQuery(q));
    }
  }

  /** Searching for an account's exact uid finds that account. */
  lemma ExactUidFound(users: seq<AuthUser>, u: AuthUser)
    requires u in users && Trim(u.uid) == u.uid
    ensures u in Filtered(users, u.uid)
  {
    FilteredFacts(users, u.uid);
    var q := Lower(u.uid);
    assert q[0..|q|] == q;
    ContainsAt(q, q, 0);
  }

  /** The create form; the role select starts on `"employee"`. */
  datatype CreateForm = CreateForm(email: string, password: string, displayName: string, role: string)

  const EmptyCreateForm := CreateForm("", "", "", "employee")

  /** The body of the create call; `None` stands for `null`. */
  datatype CreatePayload = CreatePayload(email: string, password: string, displayName: Option<string>, role: string)

  /** What `handleCreate` sends for a form, or `None` when it refuses the form
      without a call. */
  function CreateRequest(f: CreateForm): (r: Option<CreatePayload>)
    ensures r.None? <==> Trim(f.email) == "" || f.password == ""
  {
    var email := Trim(f.email);
    if email == "" || f.password == "" then None
    else
      var name := Trim(f.displayName);
      Some(CreatePayload(email, f.password, if name == "" then None else Some(name), Or(f.role, "employee")))
  }

  /** A payload whose text has no white space at either end. */
  predicate Trimmed(s: string) {
    s == [] || (!IsSpace(s[0]) && !IsSpace(s[|s| - 1]))
  }

  /** The create call gets a nonblank trimmed e-mail, the typed password, a
      role that is the chosen one or `"employee"`, and a display name that is
      either absent or nonblank and trimmed. */
  lemma CreateRequestFacts(f: CreateForm)
    requires CreateRequest(f).Some?
    ensures var p := CreateRequest(f).value;
      p.email != "" && Trimmed(p.email) && p.password == f.password
      && p.role != "" && (f.role != "" ==> p.role == f.role)
      && (p.displayName.None? <==> Trim(f.displayName) == "")
      && (p.displayName.Some? ==> p.displayName.value != "" && Trimmed(p.displayName.value))
  {
    var i, j := TrimSlice(f.email);
    var k, l := TrimSlice(f.displayName);
  }

  /** The form a payload would have come from. */
  function FormOf(p: CreatePayload): CreateForm {
    CreateForm(p.email, p.password, p.displayName.GetOr(""), p.role)
  }

  /** Sending a payload is a fixed point: filling the form with what was sent
      sends the same payload again. */
  lemma CreateRequestRoundTrip(f: CreateForm)
    requires CreateRequest(f).Some?
    ensures CreateRequest(FormOf(CreateRequest(f).value)) == CreateRequest(f)
  {
    TrimIdempotent(f.email);
    TrimIdempotent(f.displayName);
  }

  /** The edit dialog's form. */
  datatype EditForm = EditForm(email: string, displayName: string, role: string, disabled: bool, password: string)

  /** `openEdit`'s form for a user. */
  function EditFormOf(u: AuthUser): (r: EditForm)
    ensures r.role != "" && r.password == ""
    ensures r.email == u.email && r.displayName == u.displayName && r.disabled == u.disabled
    ensures u.role != "" ==> r.role == u.role
  {
    EditForm(u.email, u.displayName, Or(u.role, "employee"), u.disabled, "")
  }

  /** The body of the update call; `None` stands for `undefined`, which the
      API reads as "leave unchanged". */
  datatype UpdatePayload = UpdatePayload(
    email: Option<string>, displayName: Option<string>, role: Option<string>,
    disabled: bool, password: Option<string>)

  /** What `handleSaveEdit` sends for a form. */
  function UpdateRequest(f: EditForm): UpdatePayload {
    var email := Trim(f.email);
    var name := Trim(f.displayName);
    UpdatePayload(
      if email == "" then None else Some(email),
      if name == "" then None else Some(name),
      if f.role == "" then None else Some(f.role),
      f.disabled,
      if f.password == "" then None else Some(f.password))
  }

  /** A blank field never clears a value: it is left out of the update, and
      every value that is sent is nonblank (the e-mail and name trimmed). */
  lemma UpdateRequestFacts(f: EditForm)
    ensures UpdateRequest(f).email.None? <==> Trim(f.email) == ""
    ensures UpdateRequest(f).displayName.None? <==> Trim(f.displayName) == ""
    ensures UpdateRequest(f).role.None? <==> f.role == ""
    ensures UpdateRequest(f).password.None? <==> f.password == ""
    ensures UpdateRequest(f).email.Some? ==>
      UpdateRequest(f).email.value != "" && Trimmed(UpdateRequest(f).email.value)
    ensures UpdateRequest(f).displayName.Some? ==>
      UpdateRequest(f).displayName.value != "" && Trimmed(UpdateRequest(f).displayName.value)
    ensures UpdateRequest(f).role.Some? ==> UpdateRequest(f).role.value == f.role
    ensures UpdateRequest(f).password.Some? ==> UpdateRequest(f).password.value == f.password
    ensures UpdateRequest(f).disabled == f.disabled
  {
    var i, j := TrimSlice(f.email);
    var k, l := TrimSlice(f.displayName);
  }

  /** Opening a user and saving without edits keeps the password, sends the
      role (defaulted) and the disabled flag as they were, and sends the
      e-mail and name trimmed. */
  lemma SaveUnedited(u: AuthUser)
    ensures UpdateRequest(EditFormOf(u)).password == None
    ensures UpdateRequest(EditFormOf(u)).role == Some(Or(u.role, "employee"))
    ensures UpdateRequest(EditFormOf(u)).disabled == u.disabled
    ensures Trim(u.email) != "" ==> UpdateRequest(EditFormOf(u)).email == Some(Trim(u.email))
    ensures Trim(u.displayName) != "" ==> UpdateRequest(EditFormOf(u)).displayName == Some(Trim(u.displayName))
  {
    UpdateRequestFacts(EditFormOf(u));
  }

  /** The list `load` leaves: the call's users, or none when it fails. */
  function LoadedUsers(outcome: Outcome<seq<AuthUser>>): seq<AuthUser> {
    if outcome.Done? then outcome.value else []
  }

  /** The error `load` leaves: none, or the failure's message. */
  function LoadError(outcome: Outcome<seq<AuthUser>>): string {
    if outcome.Done? then "" else ErrorText(outcome.message, "Unable to load users")
  }

  /** The screen's state. */
  class UsersScreen {
    var users: seq<AuthUser>
    var error: string
    var search: string
    var pager: Pager
    var createForm: CreateForm
    var createError: string
    var editOpen: bool
    var editUser: Option<AuthUser>
    var editForm: EditForm
    var editError: string

    constructor ()
      ensures users == [] && error == "" && search == ""
      ensures fresh(pager) && pager.page == 1
      ensures createForm == EmptyCreateForm && createError == ""
      ensures !editOpen && editUser == None && editError == ""
      ensures editForm == EditForm("", "", "employee", false, "")
    {
      users := [];
      error := "";
      search := "";
      pager := new Pager();
      createForm := EmptyCreateForm;
      createError := "";
      editOpen := false;
      editUser := None;
      editForm := EditForm("", "", "employee", false, "");
      editError := "";
    }

    /** `load`: the list call's users replace the table; a failed call
        empties it and shows the error. */
    method Load(outcome: Outcome<seq<AuthUser>>)
      modifies this
      ensures outcome.Done? ==> users == outcome.value && error == ""
      ensures outcome.Failed? ==> users == [] && error == ErrorText(outcome.message, "Unable to load users")
      ensures users == LoadedUsers(outcome) && error == LoadError(outcome)
      ensures search == old(search) && pager == old(pager) && createForm == old(createForm)
      ensures createError == old(createError) && editOpen == old(editOpen) && editUser == old(editUser)
      ensures editForm == old(editForm) && editError == old(editError)
    {
      error := "";
      match outcome
      case Done(list) =>
        users := list;
      case Failed(message) =>
        error := ErrorText(message, "Unable to load users");
        users := [];
    }

    /** Typing in the search box puts the table back on page 1. */
    method SetSearch(s: string)
      modifies this, pager
      ensures search == s && pager == old(pager) && pager.page == 1
      ensures users == old(users) && createForm == old(createForm) && editForm == old(editForm)
      ensures error == old(error) && createError == old(createError)
      ensures editOpen == old(editOpen) && editUser == old(editUser) && editError == old(editError)
    {
      search := s;
      pager.ResetToFirst();
    }

    /** The clamp effect: the page never stays past the last page of the
        search result, and a page that is in range is kept. */
    method ClampPage()
      requires pager.page >= 1
      modifies pager
      ensures 1 <= pager.page <= TotalPages(|Filtered(users, search)|)
      ensures old(pager.page) <= TotalPages(|Filtered(users, search)|) ==> pager.page == old(pager.page)
      ensures old(pager.page) > TotalPages(|Filtered(users, search)|) ==> pager.page == TotalPages(|Filtered(users, search)|)
    {
      pager.Clamp(TotalPages(|Filtered(users, search)|));
    }

    /** `pageRows`: at most ten of the matching users, starting at the
        current page. */
    method PageOf() returns (page: seq<AuthUser>)
      requires pager.page >= 1
      ensures page == PageRows(Filtered(users, search), pager.page)
      ensures |page| <= PageSize
      ensures forall u :: u in page ==> u in users
    {
      page := PageRows(Filtered(users, search), pager.page);
      FilteredFacts(users, search);
      forall u | u in page ensures u in users {
        var i :| 0 <= i < |page| && page[i] == u;
      }
    }

    /** `handleCreate`: a form without an e-mail or a password is refused
        with an error and no call; otherwise the payload is sent, and the
        form is cleared only when the call succeeds. */
    method HandleCreate(outcome: Outcome<()>, reload: Outcome<seq<AuthUser>>) returns (sent: Option<CreatePayload>)
      modifies this
      ensures sent == CreateRequest(old(createForm))
      ensures sent.None? ==> createForm == old(createForm) && createError == "Email and password are required."
      ensures sent.Some? && outcome.Done? ==> createForm == EmptyCreateForm && createError == ""
      ensures sent.Some? && outcome.Failed? ==>
        createForm == old(createForm) && createError == ErrorText(outcome.message, "Unable to create user")
      // a successful call is followed by `load`, whose answer replaces the list
      ensures sent.Some? && outcome.Done? ==> users == LoadedUsers(reload) && error == LoadError(reload)
      ensures !(sent.Some? && outcome.Done?) ==> users == old(users) && error == old(error)
      ensures search == old(search) && pager == old(pager)
      ensures editOpen == old(editOpen) && editUser == old(editUser) && editForm == old(editForm)
      ensures editError == old(editError)
    {
      createError := "";
      sent := CreateRequest(createForm);
      if sent.None? {
        createError := "Email and password are required.";
        return;
      }
      match outcome
      case Done(_) =>
        createForm := EmptyCreateForm;
        Load(reload);
      case Failed(message) =>
        createError := ErrorText(message, "Unable to create user");
    }

    /** `openEdit`: the dialog opens on the user's values, with the role
        defaulted and the password field empty. */
    method OpenEdit(u: AuthUser)
      modifies this
      ensures editUser == Some(u) && editForm == EditFormOf(u) && editError == "" && editOpen
      ensures users == old(users) && search == old(search) && pager == old(pager)
      ensures createForm == old(createForm) && createError == old(createError) && error == old(error)
    {
      editUser := Some(u);
      editForm := EditFormOf(u);
      editError := "";
      editOpen := true;
    }

    /** `handleSaveEdit`: nothing happens without a user that has a uid;
        otherwise the update for the form is sent for that uid, and the
        dialog closes only when the call succeeds. */
    method HandleSaveEdit(outcome: Outcome<()>, reload: Outcome<seq<AuthUser>>) returns (sent: Option<(string, UpdatePayload)>)
      modifies this
      ensures old(editUser).None? || old(editUser).value.uid == "" ==>
        sent == None && editOpen == old(editOpen) && editUser == old(editUser) && editError == old(editError)
      ensures old(editUser).Some? && old(editUser).value.uid != "" ==>
        sent == Some((old(editUser).value.uid, UpdateRequest(old(editForm))))
      ensures sent.Some? && outcome.Done? ==> !editOpen && editUser == None && editError == ""
      ensures sent.Some? && outcome.Failed? ==>
        editOpen == old(editOpen) && editUser == old(editUser)
        && editError == ErrorText(outcome.message, "Unable to update user")
      // a successful call is followed by `load`, whose answer replaces the list
      ensures sent.Some? && outcome.Done? ==> users == LoadedUsers(reload) && error == LoadError(reload)
      ensures !(sent.Some? && outcome.Done?) ==> users == old(users) && error == old(error)
      ensures editForm == old(editForm) && search == old(search) && pager == old(pager)
      ensures createForm == old(createForm) && createError == old(createError)
    {
      if editUser.None? || editUser.value.uid == "" {
        return None;
      }
      editError := "";
      sent := Some((editUser.value.uid, UpdateRequest(editForm)));
      match outcome
      case Done(_) =>
        editOpen := false;
        editUser := None;
        Load(reload);
      case Failed(message) =>
        editError := ErrorText(message, "Unable to update user");
    }
  }
}
