/**
  The bottom navigation bar: which tabs it shows, where a tab click leads a
  signed-in or signed-out visitor, the profile menu and the avatar letter.
  Route changes and sign-outs are recorded as effects, in the order issued.
 */
module NavBar {
  import opened Wrappers

  /** `status` as the session hook reports it. */
  datatype Status = Authenticated | Loading | Unauthenticated

  /** The signed-in principal; each field may be missing. */
  datatype SessionUser = SessionUser(name: Option<string>, email: Option<string>, image: Option<string>)

  /** The session object, when there is one; its user may be missing. */
  datatype Session = Session(user: Option<SessionUser>)

  /** A page element the profile menu can be anchored to. */
  datatype Element = Element(handle: nat)

  /** `router.push(path)` and `signOut({ callbackUrl })`. */
  datatype Effect = Push(path: string) | SignOut(callbackUrl: string)

  /** A tab of the bar: its label and its path; its icon is rendering and is not modelled. */
  datatype Tab = Tab(text: string, value: string)

  const HomePath := "/"
  const AboutPath := "/o-mne"
  const RegisterPath := "/auth/registracia"
  const LoginPath := "/auth/prihlasenie"
  const GdprPath := "/gdpr"
  const SearchPath := "/hladat"
  const CreatePath := "/pridat"
  const ProfilePath := "/profile"

  const NonAuthPaths := [Tab("Domov", HomePath), Tab("O mne", AboutPath),
                         Tab("Registrácia", RegisterPath), Tab("Prihlásenie", LoginPath)]
  const AuthPaths := [Tab("Domov", HomePath), Tab("Hľadať", SearchPath),
                      Tab("Pridať", CreatePath), Tab("Profil", ProfilePath)]

  /** The paths a visitor without a session may open. */
  predicate IsPublic(path: string)
  {
    path == RegisterPath || path == LoginPath || path == HomePath || path == AboutPath || path == GdprPath
  }

  /**
    The route pushed for a click on a tab other than the profile tab: the
    requested path, unless there is no session and the path is not public,
    in which case the registration page.
   */
  function Destination(newValue: string, hasSession: bool): (r: string)
    ensures r == newValue <==> hasSession || IsPublic(newValue)
    ensures r != newValue ==> r == RegisterPath
    ensures !hasSession ==> IsPublic(r)
  {
    if !hasSession && !IsPublic(newValue) then RegisterPath else newValue
  }

  /** `navigationPaths`: the tabs shown for a session status. */
  function NavigationPaths(status: Status): (r: seq<Tab>)
    ensures |r| == 4 && r[0] == Tab("Domov", HomePath)
    ensures (exists t :: t in r && t.value == ProfilePath) <==> status == Authenticated
    ensures status != Authenticated ==> forall t :: t in r ==> IsPublic(t.value)
  {
    if status == Authenticated then
      assert AuthPaths[3].value == ProfilePath;
      AuthPaths
    else
      NonAuthPaths
  }

  /** `session?.user?.name`. */
  function SessionName(session: Option<Session>): Option<string>
  {
    if session.Some? && session.value.user.Some? then session.value.user.value.name else None
  }

  /**
    The letter in the avatar when the session user has no image: the first
    character of the name, or "U" when the name is missing or empty.
   */
  function AvatarFallback(session: Option<Session>): (r: string)
    ensures |r| == 1
    ensures SessionName(session).Some? && SessionName(session).value != [] ==> r <= SessionName(session).value
    ensures SessionName(session).None? || SessionName(session).value == [] ==> r == "U"
  {
    var name := SessionName(session);
    if name.Some? && name.value != [] then name.value[..1] else "U"
  }

  /**
    The tabs shown while the status is not yet authenticated are all public, so
    the guard lets every one of them through even without a session.
   */
  lemma ShownSignedOutTabsPass(status: Status, t: Tab)
    requires status != Authenticated
    requires t in NavigationPaths(status)
    ensures Destination(t.value, false) == t.value
  {
  }

  /**
    The guard reads the session, the tab list reads the status: when they
    disagree (an authenticated status without a session object), the search
    and create tabs are shown yet lead to the registration page.
   */
  lemma GuardIgnoresStatus()
    ensures Tab("Hľadať", SearchPath) in NavigationPaths(Authenticated)
    ensures Tab("Pridať", CreatePath) in NavigationPaths(Authenticated)
    ensures Destination(SearchPath, false) == RegisterPath
    ensures Destination(CreatePath, false) == RegisterPath
  {
    assert NavigationPaths(Authenticated)[1] == Tab("Hľadať", SearchPath);
    assert NavigationPaths(Authenticated)[2] == Tab("Pridať", CreatePath);
  }

  class Navbar {
    /** The selected tab. */
    var value: string
    /** The element the profile menu is anchored to; the menu is open while it is set. */
    var anchorEl: Option<Element>
    /** Route pushes and sign-outs issued so far. */
    var effects: seq<Effect>

    constructor ()
      ensures value == HomePath && anchorEl == None && effects == []
    {
      value := HomePath;
      anchorEl := None;
      effects := [];
    }

    /** `open={Boolean(anchorEl)}`. */
    predicate MenuOpen()
      reads this
    {
      anchorEl.Some?
    }

    /** `handleProfileMenuOpen`: anchors the menu to the clicked element. */
    method HandleProfileMenuOpen(target: Element)
      modifies this
      ensures anchorEl == Some(target) && MenuOpen()
      ensures value == old(value) && effects == old(effects)
    {
      anchorEl := Some(target);
    }

    /** `handleProfileMenuClose`: closes the menu. */
    method HandleProfileMenuClose()
      modifies this
      ensures anchorEl == None && !MenuOpen()
      ensures value == old(value) && effects == old(effects)
    {
      anchorEl := None;
    }

    /**
      `handleProfileOption(option)`: always closes the menu; `"profile"` opens
      the own profile, `"logout"` signs out back to the home page, and any other
      option does nothing more.
     */
    method HandleProfileOption(option: string)
      modifies this
      ensures !MenuOpen() && value == old(value)
      ensures option == "profile" ==> effects == old(effects) + [Push(ProfilePath)]
      ensures option == "logout" ==> effects == old(effects) + [SignOut(HomePath)]
      ensures option != "profile" && option != "logout" ==> effects == old(effects)
    {
      HandleProfileMenuClose();
      if option == "profile" {
        effects := effects + [Push(ProfilePath)];
      } else if option == "logout" {
        effects := effects + [SignOut(HomePath)];
      }
    }

    /**
      `handleNavigation(event, newValue)`: the profile tab changes nothing (its
      menu handles it); any other tab becomes the selected tab, even when the
      guard redirects the push to the registration page.
     */
    method HandleNavigation(newValue: string, session: Option<Session>)
      modifies this
      ensures anchorEl == old(anchorEl)
      ensures newValue == ProfilePath ==> value == old(value) && effects == old(effects)
      ensures newValue != ProfilePath ==> value == newValue
      ensures newValue != ProfilePath ==> effects == old(effects) + [Push(Destination(newValue, session.Some?))]
      ensures session.None? ==> forall e :: e in effects && e !in old(effects) ==> e.Push? && IsPublic(e.path)
    {
      if newValue == ProfilePath {
        return;
      }
      value := newValue;
      if session.None? && newValue != RegisterPath && newValue != LoginPath && newValue != HomePath
         && newValue != AboutPath && newValue != GdprPath {
        effects := effects + [Push(RegisterPath)];
      } else {
        effects := effects + [Push(newValue)];
      }
    }
  }
}
