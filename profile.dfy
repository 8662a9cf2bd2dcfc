/** The profile page: the initials and user name it derives from the profile, and the
    load, edit and save steps of its one editable field. */
module ProfilePage {
  import opened Wrappers
  import opened Text
  import opened Store

  /** `pieces.map(n => n[0]).join('')`: the first character of each piece, where an empty
      piece gives `undefined`, which `join` writes as nothing. */
  function Firsts(pieces: seq<string>): (r: string)
    ensures |r| <= |pieces|
  {
    if |pieces| == 0 then []
    else (if pieces[0] != [] then [pieces[0][0]] else []) + Firsts(pieces[1..])
  }

  /** The characters of `s` that start a word: not a space, and first or after a space.
      `afterSpace` says whether the position before `s` counts as a word boundary. */
  function WordStarts(s: string, afterSpace: bool): string {
    if |s| == 0 then []
    else if s[0] == ' ' then WordStarts(s[1..], true)
    else (if afterSpace then [s[0]] else []) + WordStarts(s[1..], false)
  }

  /** Splitting on spaces and taking first characters picks exactly the word starts; from a
      position inside a word, the first piece is the rest of that word and contributes
      nothing new. */
  lemma {:induction false} FirstsOfSplit(s: string)
    ensures Firsts(Split(s, ' ')) == WordStarts(s, true)
    ensures Firsts(Split(s, ' ')[1..]) == WordStarts(s, false)
  {
    if |s| > 0 {
      FirstsOfSplit(s[1..]);
      var rest := Split(s[1..], ' ');
      if s[0] == ' ' {
        assert Split(s, ' ') == [[]] + rest;
        assert ([[]] + rest)[1..] == rest;
      } else {
        var r := [[s[0]] + rest[0]] + rest[1..];
        assert Split(s, ' ') == r;
        assert r[1..] == rest[1..];
      }
    }
  }

  /** The avatar fallback: with a name, the upper-cased first letters of its space-separated
      words; otherwise the upper-cased first character of the address, or "U". */
  function Initials(fullName: string, email: string): (r: string)
    ensures fullName != [] ==> r == Upper(WordStarts(fullName, true))
    ensures fullName == [] && email != [] ==> r == [UpperChar(email[0])]
    ensures fullName == [] && email == [] ==> r == "U"
  {
    if fullName != [] then
      FirstsOfSplit(fullName);
      Upper(Firsts(Split(fullName, ' ')))
    else if email != [] then [UpperChar(email[0])]
    else "U"
  }

  /** One letter per word of the name, and never more letters than the name has characters;
      a name of spaces only yields no letters at all. */
  lemma {:induction false} InitialsBound(s: string, afterSpace: bool)
    ensures |WordStarts(s, afterSpace)| <= |s|
    ensures (forall i :: 0 <= i < |s| ==> s[i] == ' ') ==> WordStarts(s, afterSpace) == []
    ensures forall i :: 0 <= i < |WordStarts(s, afterSpace)| ==> WordStarts(s, afterSpace)[i] != ' '
  {
    if |s| > 0 {
      InitialsBound(s[1..], s[0] == ' ');
      InitialsBound(s[1..], false);
      InitialsBound(s[1..], true);
    }
  }

  /** `profile.email?.split('@')[0] || 'Not available'`: the part of the address before the
      first `@`, unless that part is empty (no address, or one starting with `@`). */
  function Username(email: string): (r: string)
    ensures r != []
    ensures (email == [] || email[0] == '@') ==> r == "Not available"
    ensures email != [] && email[0] != '@' ==>
      && |r| <= |email| && r == email[..|r|] && '@' !in r
      && (|r| < |email| ==> email[|r|] == '@')
  {
    SplitFirstPiece(email, '@');
    var local := Split(email, '@')[0];
    if local != [] then local else "Not available"
  }

  /** `x || fallback` on an optional string: the value when present and non-empty. */
  function Or(x: Option<string>, fallback: string): string {
    if x.Some? && x.value != [] then x.value else fallback
  }

  /** A `profiles` row; absent or null columns are `None`. */
  datatype ProfileRow = ProfileRow(
    fullName: Option<string>,
    email: Option<string>,
    avatarUrl: Option<string>,
    createdAt: Option<string>)

  /** The page's `profile` record. */
  datatype ProfileForm = ProfileForm(fullName: string, email: string, avatarUrl: string, createdAt: string)

  /** The fields `handleInputChange` can name. */
  datatype Field = FullName | Email | AvatarUrl | CreatedAt

  /** `profile[field]`. */
  function Get(p: ProfileForm, f: Field): string {
    match f
    case FullName => p.fullName
    case Email => p.email
    case AvatarUrl => p.avatarUrl
    case CreatedAt => p.createdAt
  }

  /** `{ ...prev, [field]: value }`: the named field reads back the value, every other
      field reads what it read before. */
  function WithField(p: ProfileForm, f: Field, v: string): (r: ProfileForm)
    ensures Get(r, f) == v
    ensures forall g :: g != f ==> Get(r, g) == Get(p, g)
  {
    match f
    case FullName => p.(fullName := v)
    case Email => p.(email := v)
    case AvatarUrl => p.(avatarUrl := v)
    case CreatedAt => p.(createdAt := v)
  }

  /** The page's state. */
  class Profile {
    /** `user?.id` and `user?.email`. */
    const userId: Option<string>
    const authEmail: Option<string>
    var form: ProfileForm
    var isEditing: bool
    var loading: bool
    var saving: bool
    /** The writes sent to the store so far, oldest first. */
    var sent: seq<Write>

    constructor(userId: Option<string>, authEmail: Option<string>)
      ensures this.userId == userId && this.authEmail == authEmail
      ensures form == ProfileForm([], [], [], []) && !isEditing && loading && !saving && sent == []
    {
      this.userId := userId;
      this.authEmail := authEmail;
      form := ProfileForm([], [], [], []);
      isEditing := false;
      loading := true;
      saving := false;
      sent := [];
    }

    /** `fetchProfile`: every column falls back to the empty string, the address first to the
        signed-in user's; a failed read keeps the record. Loading ends either way. */
    method FetchProfile(row: ReadReply<ProfileRow>)
      modifies this
      ensures row.Rows? ==> form == ProfileForm(Or(row.value.fullName, []), Or(row.value.email, Or(authEmail, [])),
                                                Or(row.value.avatarUrl, []), Or(row.value.createdAt, []))
      ensures row.ReadErr? ==> form == old(form)
      ensures !loading && isEditing == old(isEditing) && saving == old(saving) && sent == old(sent)
    {
      if row.Rows? {
        form := ProfileForm(Or(row.value.fullName, []), Or(row.value.email, Or(authEmail, [])),
                            Or(row.value.avatarUrl, []), Or(row.value.createdAt, []));
      }
      loading := false;
    }

    /** `handleInputChange`: only the named field changes. */
    method InputChange(f: Field, v: string)
      modifies this
      ensures form == WithField(old(form), f, v)
      ensures isEditing == old(isEditing) && loading == old(loading) && saving == old(saving) && sent == old(sent)
    {
      form := WithField(form, f, v);
    }

    /** "Edit Profile". */
    method StartEditing()
      modifies this
      ensures isEditing && form == old(form) && loading == old(loading) && saving == old(saving) && sent == old(sent)
    {
      isEditing := true;
    }

    /** "Cancel": editing ends and the record is read again. */
    method Cancel(row: ReadReply<ProfileRow>)
      modifies this
      ensures !isEditing && !loading && saving == old(saving) && sent == old(sent)
      ensures row.Rows? ==> form == ProfileForm(Or(row.value.fullName, []), Or(row.value.email, Or(authEmail, [])),
                                                Or(row.value.avatarUrl, []), Or(row.value.createdAt, []))
      ensures row.ReadErr? ==> form == old(form)
    {
      isEditing := false;
      FetchProfile(row);
    }

    /** `handleSaveProfile`: only the name and the time are written; editing ends only on
        success, and the saving flag ends false on both paths. */
    method SaveProfile(reply: Reply, at: int) returns (o: Outcome)
      modifies this
      ensures sent == old(sent) + [UpdateProfile(userId, old(form.fullName), at)]
      ensures reply.Ok? ==> o == Done && !isEditing
      ensures reply.Err? ==> o == Failed && isEditing == old(isEditing)
      ensures !saving && form == old(form) && loading == old(loading)
    {
      saving := true;
      sent := sent + [UpdateProfile(userId, form.fullName, at)];
      if reply.Ok? {
        isEditing := false;
        o := Done;
      } else {
        o := Failed;
      }
      saving := false;
    }
  }
}
