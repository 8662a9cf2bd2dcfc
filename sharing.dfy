/** The task sharing dialog: the e-mail check, the sequence of lookups that decides whether a
    share is created, and the list of existing shares with its removal. */
module Sharing {
  import opened Wrappers
  import opened Text
  import opened Store
  import opened TaskCard

  /** An existing share of the task, joined with the profile it grants access to. */
  datatype ShareEntry = ShareEntry(
    id: string,
    sharedWith: string,
    permission: string,
    email: string,
    fullName: Option<string>)

  /** The `{ id, email }` a profile lookup by e-mail returns. */
  datatype Profile = Profile(id: string, email: string)

  /** A character the e-mail pattern's `[^\s@]` admits. */
  predicate Plain(c: char) {
    !IsSpace(c) && c != '@'
  }

  /** A run of characters that `[^\s@]+` matches, apart from the non-emptiness. */
  predicate AllPlain(s: string) {
    forall j :: 0 <= j < |s| ==> Plain(s[j])
  }

  /** The pattern `^[^\s@]+@[^\s@]+\.[^\s@]+$`, stated by the positions of its `@` and `.`:
      three non-empty plain runs with an `@` between the first two and a `.` between the last
      two. */
  ghost predicate MatchesEmailPattern(s: string) {
    exists i, k :: 1 <= i && i + 1 < k && k + 1 < |s| && s[i] == '@' && s[k] == '.' &&
      AllPlain(s[..i]) && AllPlain(s[i + 1..k]) && AllPlain(s[k + 1..])
  }

  /** `validateEmail`: no white space anywhere, a single `@` that is not the first character,
      and a `.` strictly inside the part after it. */
  function ValidateEmail(s: string): (r: bool)
    ensures r ==> NoSpace(s) && '@' in s && s[0] != '@'
  {
    var i := |PrefixBefore(s, '@')|;
    && 1 <= i < |s|
    && (forall j :: 0 <= j < |s| ==> !IsSpace(s[j]))
    && (forall j :: i < j < |s| ==> s[j] != '@')
    && (exists k :: i + 1 < k < |s| - 1 && s[k] == '.')
  }

  /** The check is exactly the pattern, in both directions. */
  lemma ValidateEmailIsPattern(s: string)
    ensures ValidateEmail(s) <==> MatchesEmailPattern(s)
  {
    var i := |PrefixBefore(s, '@')|;
    if ValidateEmail(s) {
      var k :| i + 1 < k < |s| - 1 && s[k] == '.';
      assert s[i] == '@';
      assert AllPlain(s[..i]) by {
        forall j | 0 <= j < i ensures Plain(s[..i][j]) {
          assert s[..i][j] == PrefixBefore(s, '@')[j];
        }
      }
      assert AllPlain(s[i + 1..k]);
      assert AllPlain(s[k + 1..]);
    }
    if MatchesEmailPattern(s) {
      var i0, k :| 1 <= i0 && i0 + 1 < k && k + 1 < |s| && s[i0] == '@' && s[k] == '.' &&
        AllPlain(s[..i0]) && AllPlain(s[i0 + 1..k]) && AllPlain(s[k + 1..]);
      PlainRunsCover(s, i0, k);
      FirstAt(s, i0);
    }
  }

  /** The three runs and the two separators cover the string. */
  lemma PlainRunsCover(s: string, i: int, k: int)
    requires 1 <= i && i + 1 < k && k + 1 < |s| && s[i] == '@' && s[k] == '.'
    requires AllPlain(s[..i]) && AllPlain(s[i + 1..k]) && AllPlain(s[k + 1..])
    ensures forall j :: 0 <= j < |s| ==> !IsSpace(s[j])
    ensures forall j :: 0 <= j < |s| && j != i ==> s[j] != '@'
  {
    forall j | 0 <= j < |s| ensures !IsSpace(s[j]) && (j != i ==> s[j] != '@') {
      if j < i {
        assert s[..i][j] == s[j];
      } else if i < j < k {
        assert s[i + 1..k][j - i - 1] == s[j];
      } else if k < j {
        assert s[k + 1..][j - k - 1] == s[j];
      }
    }
  }

  /** An `@` with none before it is the one `PrefixBefore` stops at. */
  lemma FirstAt(s: string, i: int)
    requires 0 <= i < |s| && s[i] == '@'
    requires forall j :: 0 <= j < i ==> s[j] != '@'
    ensures |PrefixBefore(s, '@')| == i
  {
  }

  /** `email.trim().toLowerCase()`: the address looked up and compared. */
  function Normalized(email: string): (r: string)
    ensures |r| <= |email|
  {
    Lower(Trim(email))
  }

  /** Normalising twice changes nothing more, and the order of trimming and lower-casing does
      not matter. */
  lemma NormalizedIdempotent(email: string)
    ensures Normalized(Normalized(email)) == Normalized(email)
    ensures Normalized(email) == Trim(Lower(email))
  {
    LowerTrimCommute(email);
    LowerTrimCommute(Trim(email));
    TrimIdempotent(email);
    LowerIsLower(Trim(email));
  }

  /** `isValidEmail`: the trimmed field is non-empty and passes the check. */
  predicate IsValidEmail(email: string) {
    Trim(email) != [] && ValidateEmail(Trim(email))
  }

  /** The "Share Task" button is enabled. */
  predicate ShareButtonEnabled(loading: bool, email: string) {
    !loading && IsValidEmail(email)
  }

  /** Enter in the e-mail field submits. The loading flag is not consulted. */
  predicate EnterSubmits(email: string) {
    IsValidEmail(email)
  }

  /** The field shows "Please enter a valid email address". */
  predicate ShowsEmailError(email: string) {
    Trim(email) != [] && !IsValidEmail(email)
  }

  /** Every field is in exactly one of three states: blank (no message, no submit), invalid
      (the message, no submit) or valid (no message; the button submits unless a share is in
      progress, Enter submits even then). */
  lemma EmailFieldStates(loading: bool, email: string)
    ensures Trim(email) == [] ==> !ShowsEmailError(email) && !EnterSubmits(email) && !ShareButtonEnabled(loading, email)
    ensures ShowsEmailError(email) ==> !EnterSubmits(email) && !ShareButtonEnabled(loading, email)
    ensures IsValidEmail(email) ==>
      !ShowsEmailError(email) && EnterSubmits(email) && (ShareButtonEnabled(loading, email) <==> !loading)
  {
  }

  /** `taskShares.find(share => share.profiles.email === email)`. */
  function FindShareByEmail(shares: seq<ShareEntry>, email: string): (r: Option<ShareEntry>)
    ensures r.None? <==> forall j :: 0 <= j < |shares| ==> shares[j].email != email
    ensures r.Some? ==> r.value in shares && r.value.email == email
  {
    if |shares| == 0 then None
    else if shares[0].email == email then Some(shares[0])
    else FindShareByEmail(shares[1..], email)
  }

  /** What `handleShareTask` does after its early return, given the lookup's reply. */
  datatype ShareStep =
    | NoAction                    // no task, or a blank field
    | LookupFailed                // the profile lookup replied with an error
    | UserNotFound                // no profile has that address
    | AlreadyShared               // a listed share already has that address
    | Insert(sharedWith: string)  // a share for that profile is to be inserted

  /** The decision of `handleShareTask`, in its order of checks. */
  function DecideShare(task: Option<Task>, email: string, shares: seq<ShareEntry>,
                       lookup: ReadReply<Option<Profile>>): (r: ShareStep)
    ensures r == NoAction <==> task.None? || Trim(email) == []
    ensures r.Insert? <==>
      && task.Some? && Trim(email) != [] && lookup.Rows? && lookup.value.Some?
      && r == Insert(lookup.value.value.id)
      && forall j :: 0 <= j < |shares| ==> shares[j].email != Normalized(email)
    ensures r == LookupFailed <==> task.Some? && Trim(email) != [] && lookup.ReadErr?
    ensures r == UserNotFound <==> task.Some? && Trim(email) != [] && lookup.Rows? && lookup.value.None?
    ensures r == AlreadyShared <==>
      && task.Some? && Trim(email) != [] && lookup.Rows? && lookup.value.Some?
      && exists j :: 0 <= j < |shares| && shares[j].email == Normalized(email)
  {
    if task.None? || Trim(email) == [] then NoAction
    else if lookup.ReadErr? then LookupFailed
    else if lookup.value.None? then UserNotFound
    else if FindShareByEmail(shares, Normalized(email)).Some? then AlreadyShared
    else Insert(lookup.value.value.id)
  }

  /** The duplicate check looks at the listed addresses only: a first share with a user goes
      through whatever their id, including the id of the user sharing the task; and a share
      whose address differs only in case or surrounding blanks from the normalised one is a
      different address. */
  lemma NoSelfShareCheck(task: Task, email: string, shares: seq<ShareEntry>, me: string)
    requires Trim(email) != []
    requires forall j :: 0 <= j < |shares| ==> shares[j].email != Normalized(email)
    ensures DecideShare(Some(task), email, shares, Rows(Some(Profile(me, Normalized(email))))) == Insert(me)
  {
  }

  /** Sharing the same address again, once the list has been refreshed, is refused. */
  lemma SecondShareRefused(task: Task, email: string, e: ShareEntry, shares: seq<ShareEntry>, p: Profile)
    requires Trim(email) != [] && e.email == Normalized(email)
    ensures DecideShare(Some(task), email, shares + [e], Rows(Some(p))) == AlreadyShared
  {
    assert (shares + [e])[|shares|] == e;
  }

  /** The dialog's state. Each page mounts one dialog for its whole life and only changes
      its `task` prop, so the field, the permission and the listed shares carry over from
      one task to the next. */
  class SharingModal {
    /** The `task` prop: the task the dialog was last opened on, if any. */
    var task: Option<Task>
    var email: string
    var permission: string
    var loading: bool
    var shares: seq<ShareEntry>
    var loadingShares: bool
    /** The writes sent to the store so far, oldest first. */
    var sent: seq<Write>

    constructor(task: Option<Task>)
      ensures this.task == task && email == [] && permission == "view"
      ensures !loading && shares == [] && !loadingShares && sent == []
    {
      this.task := task;
      email := [];
      permission := "view";
      loading := false;
      shares := [];
      loadingShares := false;
      sent := [];
    }

    /** The page passes another task: only the prop changes. */
    method SetTask(t: Option<Task>)
      modifies this
      ensures task == t
      ensures email == old(email) && permission == old(permission) && loading == old(loading)
      ensures shares == old(shares) && loadingShares == old(loadingShares) && sent == old(sent)
    {
      task := t;
    }

    /** Typing in the e-mail field. */
    method SetEmail(e: string)
      modifies this
      ensures email == e
      ensures permission == old(permission) && loading == old(loading) && shares == old(shares)
      ensures loadingShares == old(loadingShares) && sent == old(sent) && task == old(task)
    {
      email := e;
    }

    /** The permission select: "view" or "edit". */
    method SetPermission(p: string)
      requires p == "view" || p == "edit"
      modifies this
      ensures permission == p
      ensures email == old(email) && loading == old(loading) && shares == old(shares)
      ensures loadingShares == old(loadingShares) && sent == old(sent) && task == old(task)
    {
      permission := p;
    }

    /** `fetchTaskShares`: with a task, the listed shares become the rows read, or stay as they
        were if the read fails; the loading flag ends false. Without a task nothing happens. */
    method FetchTaskShares(rows: ReadReply<seq<ShareEntry>>)
      modifies this
      ensures task.None? ==> shares == old(shares) && loadingShares == old(loadingShares)
      ensures task.Some? ==> shares == (if rows.Rows? then rows.value else old(shares)) && !loadingShares
      ensures email == old(email) && permission == old(permission) && loading == old(loading)
      ensures sent == old(sent) && task == old(task)
    {
      if task.None? {
        return;
      }
      loadingShares := true;
      if rows.Rows? {
        shares := rows.value;
      }
      loadingShares := false;
    }

    /** `handleShareTask`. `lookup` is the profile lookup's reply, `me` the signed-in user's id
        and `inserted` the insert's reply. A created share resets the field and the permission;
        the caller then refreshes the list. */
    method ShareTask(lookup: ReadReply<Option<Profile>>, me: Option<string>, inserted: Reply) returns (step: ShareStep, o: Outcome)
      modifies this
      ensures step == DecideShare(task, old(email), old(shares), lookup)
      ensures step == NoAction ==> o == Ignored && loading == old(loading)
      ensures step != NoAction ==> !loading
      ensures step.Insert? ==>
        && sent == old(sent) + [InsertShare(task.value.id, step.sharedWith, me, old(permission))]
        && (inserted.Ok? ==> o == Done && email == [] && permission == "view")
        && (inserted.Err? ==> o == Failed && email == old(email) && permission == old(permission))
      ensures !step.Insert? ==> sent == old(sent) && email == old(email) && permission == old(permission)
      ensures step == LookupFailed ==> o == Failed
      ensures step == UserNotFound || step == AlreadyShared ==> o == Denied
      ensures shares == old(shares) && loadingShares == old(loadingShares) && task == old(task)
    {
      step := DecideShare(task, email, shares, lookup);
      if step == NoAction {
        return step, Ignored;
      }
      loading := true;
      match step {
        case Insert(who) =>
          sent := sent + [InsertShare(task.value.id, who, me, permission)];
          if inserted.Ok? {
            email := [];
            permission := "view";
            o := Done;
          } else {
            o := Failed;
          }
        case LookupFailed =>
          o := Failed;
        case _ =>
          o := Denied;
      }
      loading := false;
    }

    /** `handleRemoveShare`: the delete is sent; on success the caller refreshes the list. */
    method RemoveShare(shareId: string, reply: Reply) returns (o: Outcome)
      modifies this
      ensures sent == old(sent) + [DeleteShare(shareId)]
      ensures o == (if reply.Ok? then Done else Failed)
      ensures email == old(email) && permission == old(permission) && loading == old(loading)
      ensures shares == old(shares) && loadingShares == old(loadingShares) && task == old(task)
    {
      sent := sent + [DeleteShare(shareId)];
      o := if reply.Ok? then Done else Failed;
    }
  }

  /** The dialog carries the listed shares from one task to the next: once task `a`'s shares
      list an address and the dialog is reopened on task `b`, a failed read of `b`'s shares
      leaves `a`'s listed, and sharing `b` with that address is refused as already shared. */
  method StaleSharesAfterFailedRead(a: Task, b: Task, e: ShareEntry, email: string, p: Profile)
    returns (step: ShareStep)
    requires Trim(email) != [] && e.email == Normalized(email)
    ensures step == AlreadyShared
  {
    var modal := new SharingModal(Some(a));
    modal.FetchTaskShares(Rows([e]));
    modal.SetTask(Some(b));
    modal.FetchTaskShares(ReadErr);
    modal.SetEmail(email);
    var o;
    step, o := modal.ShareTask(Rows(Some(p)), None, Ok);
    SecondShareRefused(b, email, e, [], p);
    assert [] + [e] == [e];
  }
}
