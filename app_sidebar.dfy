/** The sidebar's navigation table and the rule that marks an item active
    for the current pathname. */
module AppSidebar {

  /** A navigation entry (`label` is a Dafny keyword, so that field is `itemLabel`). */
  datatype NavItem = NavItem(href: string, itemLabel: string)

  const NavItems: seq<NavItem> := [NavItem("/", "Dashboard"), NavItem("/phases", "Phases")]

  /** The item is active on its own path and, unless it is the root, on any
      path that starts with its href (`startsWith` is a plain prefix test). */
  predicate IsActive(pathname: string, href: string) {
    pathname == href || (href != "/" && href <= pathname)
  }

  const BaseClass: string := "justify-start"
  const HighlightedClass: string :=
    "justify-start bg-sidebar-primary text-sidebar-primary-foreground hover:bg-sidebar-primary/90"

  /** The menu button's class names: the highlight is added by the same
      condition as the active flag. */
  function ButtonClass(pathname: string, href: string): string {
    if pathname == href || (href != "/" && href <= pathname) then HighlightedClass else BaseClass
  }

  /** The root item is active only on "/" itself. */
  lemma RootActiveIff(pathname: string)
    ensures IsActive(pathname, "/") <==> pathname == "/"
  {
  }

  /** Any other item is active exactly on the paths it prefixes, which
      includes its sub-pages and also unrelated paths such as "/phasesX". */
  lemma NonRootActiveIff(pathname: string, href: string)
    requires href != "/"
    ensures IsActive(pathname, href) <==> href <= pathname
    ensures IsActive(href + "/abc", href) && IsActive(href + "X", href)
  {
    assert href <= href + "/abc" && href <= href + "X";
  }

  /** The highlight is applied exactly when the item is active. */
  lemma ClassIffActive(pathname: string, href: string)
    ensures ButtonClass(pathname, href) == HighlightedClass <==> IsActive(pathname, href)
    ensures ButtonClass(pathname, href) == BaseClass <==> !IsActive(pathname, href)
  {
    assert |HighlightedClass| != |BaseClass|;
  }

  /** With the configured table, no pathname makes two items active. */
  lemma AtMostOneActive(pathname: string)
    ensures forall i, j :: 0 <= i < j < |NavItems| ==>
              !(IsActive(pathname, NavItems[i].href) && IsActive(pathname, NavItems[j].href))
  {
    forall i, j | 0 <= i < j < |NavItems|
      ensures !(IsActive(pathname, NavItems[i].href) && IsActive(pathname, NavItems[j].href))
    {
      assert NavItems[i].href == "/" && NavItems[j].href == "/phases";
      if IsActive(pathname, "/") {
        assert pathname == "/";
        assert |"/phases"| > |pathname|;
      }
    }
  }
}
