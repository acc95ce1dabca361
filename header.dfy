/**
 * The logic of src/components/app-header.tsx: the search filter over the navigation items,
 * the light/dark theme with its storage copy and document class, and the account menu's
 * avatar fallback and label.
 */
module AppHeader {
  import opened Wrappers
  import Sequences
  import opened Ascii
  import opened Sessions

  datatype NavItem = NavItem(href: string, caption: string)  // `caption` is the source's `label`, a Dafny keyword

  const NavItems: seq<NavItem> := [
    NavItem("/dashboard", "Dashboard"),
    NavItem("/tasks", "Tasks"),
    NavItem("/pomodoro", "Timer"),
    NavItem("/reminder", "Reminder"),
    NavItem("/goals", "Goals")
  ]

  /** The filter's test: the lowercased label includes `needle`. */
  function LabelMatches(needle: string): NavItem -> bool {
    (item: NavItem) => Includes(Lower(item.caption), needle)
  }

  /**
   * `filteredNavItems`: all items for an empty query, otherwise the items whose lowercased
   * label includes the lowercased query, in their original order.
   */
  function FilteredNavItems(items: seq<NavItem>, searchQuery: string): (r: seq<NavItem>)
    ensures searchQuery == "" ==> r == items
    ensures Sequences.IsSubsequence(r, items)
    ensures forall item :: item in r <==> item in items && Includes(Lower(item.caption), Lower(searchQuery))
    ensures forall item :: multiset(r)[item]
                        == if Includes(Lower(item.caption), Lower(searchQuery)) then multiset(items)[item] else 0
  {
    if searchQuery == "" then
      Sequences.IsSubsequenceReflexive(items);
      items
    else
      Sequences.Filter(LabelMatches(Lower(searchQuery)), items)
  }

  /** The filter ignores case: a query and its lowercase form select the same items. */
  lemma FilterIgnoresCase(items: seq<NavItem>, searchQuery: string)
    ensures FilteredNavItems(items, searchQuery) == FilteredNavItems(items, Lower(searchQuery))
  {
    LowerIdempotent(searchQuery);
  }

  /** `toggleTheme`'s new theme: 'light' becomes 'dark', anything else becomes 'light'. */
  function NextTheme(theme: string): (r: string)
    ensures r == "dark" <==> theme == "light"
    ensures r == "light" || r == "dark"
  {
    if theme == "light" then "dark" else "light"
  }

  /** The header's own menu: an empty query shows all five items, and any query shows only menu items. */
  lemma MenuFilter(searchQuery: string)
    ensures FilteredNavItems(NavItems, "") == NavItems
    ensures |FilteredNavItems(NavItems, searchQuery)| <= |NavItems|
    ensures forall item :: item in FilteredNavItems(NavItems, searchQuery) ==> item in NavItems
  {
  }

  /** Toggling twice comes back exactly to the two themes the toggle produces. */
  lemma ToggleThemeTwice(theme: string)
    ensures NextTheme(NextTheme(theme)) == theme <==> theme == "light" || theme == "dark"
  {
  }

  /** `localStorage.getItem('theme') || 'dark'`: a missing or empty stored value gives 'dark'. */
  function InitialTheme(saved: Option<string>): (r: string)
    ensures r != ""
    ensures saved.Some? && saved.value != "" ==> r == saved.value
    ensures saved.None? || saved == Some("") ==> r == "dark"
  {
    var value := saved.GetOr("");
    if value != "" then value else "dark"
  }

  /** The header's theme, the stored copy under 'theme', and whether the document carries the 'dark' class. */
  class ThemeState {
    var theme: string
    var stored: Option<string>
    var darkClass: bool

    ghost predicate Valid()
      reads this
    {
      darkClass == (theme == "dark")
    }

    /** Mounting: the theme effect reads the stored value and sets the document class from it. */
    constructor (saved: Option<string>)
      ensures Valid() && theme == InitialTheme(saved) && stored == saved
    {
      var savedTheme := InitialTheme(saved);
      theme := savedTheme;
      stored := saved;
      if savedTheme == "dark" {
        darkClass := true;
      } else {
        darkClass := false;
      }
    }

    method ToggleTheme()
      modifies this
      ensures Valid()
      ensures theme == NextTheme(old(theme)) && stored == Some(theme)
    {
      var newTheme := NextTheme(theme);
      theme := newTheme;
      stored := Some(newTheme);
      darkClass := newTheme == "dark";
    }
  }

  /** The avatar fallback: first character, uppercased, of the display name, else of the email, else 'U'. */
  function AvatarFallback(user: Option<User>): (r: string)
    ensures |r| <= 1
    ensures forall i :: 0 <= i < |r| ==> !('a' <= r[i] <= 'z')
    ensures user.None? ==> r == "U"
    ensures user.Some? && user.value.displayName.Some? ==> r == UpperFirst(user.value.displayName.value)
    ensures user.Some? && user.value.displayName.None? ==> r == if user.value.email.Some? then UpperFirst(user.value.email.value) else "U"
  {
    if user.Some? && user.value.displayName.Some? then UpperFirst(user.value.displayName.value)
    else if user.Some? && user.value.email.Some? then UpperFirst(user.value.email.value)
    else "U"
  }

  /** The account menu's label: the display name, else the email, else 'My Account'. */
  function AccountLabel(user: Option<User>): (r: string)
    ensures user.None? ==> r == "My Account"
    ensures user.Some? && user.value.displayName.Some? ==> r == user.value.displayName.value
    ensures user.Some? && user.value.displayName.None? ==> r == user.value.email.GetOr("My Account")
  {
    if user.Some? && user.value.displayName.Some? then user.value.displayName.value
    else if user.Some? && user.value.email.Some? then user.value.email.value
    else "My Account"
  }

  /** The user has a display name or an email (possibly empty), which both fallbacks then use. */
  predicate HasIdentity(user: Option<User>) {
    user.Some? && (user.value.displayName.Some? || user.value.email.Some?)
  }

  /** The avatar shows the label's first letter, uppercased, unless both fall back to their defaults. */
  lemma AvatarFollowsLabel(user: Option<User>)
    ensures HasIdentity(user) ==> AvatarFallback(user) == UpperFirst(AccountLabel(user))
    ensures !HasIdentity(user) ==> AvatarFallback(user) == "U" && AccountLabel(user) == "My Account"
  {
  }

  /** An empty display name is used as it is: only a missing one falls back to the email. */
  lemma EmptyDisplayNameNotReplaced(uid: string, email: Option<string>)
    ensures AvatarFallback(Some(User(uid, email, Some("")))) == ""
    ensures AccountLabel(Some(User(uid, email, Some("")))) == ""
  {
  }
}
