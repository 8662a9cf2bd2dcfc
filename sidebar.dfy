/** The sidebar: its fixed menu with the count badges, the active-item rule, and the name and
    avatar letter shown for the signed-in user. */
module SidebarMenu {
  import opened Wrappers
  import opened Text
  import opened Counters

  /** A menu entry; `count` is `null` for entries without a counter. */
  datatype MenuItem = MenuItem(id: string, title: string, path: string, count: Option<int>)

  /** `menuItems`: Dashboard, My Tasks with the list length, Shared Tasks with a constant 0,
      Profile. */
  function MenuItems(k: TaskCounts): (r: seq<MenuItem>)
    ensures |r| == 4
    ensures forall i, j :: 0 <= i < j < |r| ==> r[i].path != r[j].path
    ensures r[0].path == "/" && r[1].path == "/tasks" && r[2].path == "/shared" && r[3].path == "/profile"
  {
    [MenuItem("dashboard", "Dashboard", "/", None),
     MenuItem("tasks", "My Tasks", "/tasks", Some(k.all)),
     MenuItem("shared", "Shared Tasks", "/shared", Some(0)),
     MenuItem("profile", "Profile", "/profile", None)]
  }

  /** `item.count !== null && item.count > 0`. */
  predicate ShowsBadge(item: MenuItem) {
    item.count.Some? && item.count.value > 0
  }

  /** `isActive`: the location's path is the entry's. */
  predicate IsActive(pathname: string, item: MenuItem) {
    pathname == item.path
  }

  /** Only "My Tasks" can carry a badge, and it does exactly when the list is not empty. */
  lemma BadgeRule(k: TaskCounts)
    ensures forall i :: 0 <= i < 4 && i != 1 ==> !ShowsBadge(MenuItems(k)[i])
    ensures ShowsBadge(MenuItems(k)[1]) <==> k.all > 0
  {
  }

  /** At most one entry is active, and for each of the four paths exactly that one. */
  lemma ActiveIsUnique(pathname: string, k: TaskCounts)
    ensures forall i, j :: 0 <= i < j < 4 ==> !(IsActive(pathname, MenuItems(k)[i]) && IsActive(pathname, MenuItems(k)[j]))
    ensures pathname !in {"/", "/tasks", "/shared", "/profile"} ==>
      forall i :: 0 <= i < 4 ==> !IsActive(pathname, MenuItems(k)[i])
  {
  }

  /** `user?.user_metadata?.full_name || user?.email?.split('@')[0] || 'User'`. */
  function DisplayName(fullName: Option<string>, email: Option<string>): (r: string)
    ensures r != []
    ensures fullName.Some? && fullName.value != [] ==> r == fullName.value
    ensures (fullName.None? || fullName.value == []) && email.Some? && PrefixBefore(email.value, '@') != [] ==>
      r == PrefixBefore(email.value, '@') && '@' !in r
    ensures (fullName.None? || fullName.value == []) && (email.None? || PrefixBefore(email.value, '@') == []) ==>
      r == "User"
  {
    if fullName.Some? && fullName.value != [] then fullName.value
    else if email.Some? && PrefixBefore(email.value, '@') != [] then PrefixBefore(email.value, '@')
    else "User"
  }

  /** `user?.email?.charAt(0).toUpperCase() || 'U'`: one character either way. */
  function AvatarLetter(email: Option<string>): (r: string)
    ensures |r| == 1
    ensures email.Some? && email.value != [] ==> r == [UpperChar(email.value[0])]
    ensures email.None? || email.value == [] ==> r == "U"
  {
    if email.Some? && email.value != [] then [UpperChar(email.value[0])] else "U"
  }
}
