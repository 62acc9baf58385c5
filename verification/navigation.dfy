/** The header's menu and how it marks the link for the current page. */
module Navigation {
  import opened Wrappers
  import Text

  datatype MenuLink = MenuLink(title: string, href: string)

  const Home := MenuLink("Home", "/")
  const CertificatesLink := MenuLink("Certificates", "/certificates")
  const MenuLinks := [Home, CertificatesLink]

  /** `pathname === href || pathname?.startsWith(href + "/")`; the pathname is
      None before the router knows it. */
  function IsActive(pathname: Option<string>, href: string): (r: bool)
    ensures pathname.None? ==> !r
  {
    pathname.Some? && (pathname.value == href || Text.StartsWith(pathname.value, href + "/"))
  }

  /** A link is active on its own page and on every page below it. */
  lemma ActiveOnOwnAndNestedPages(href: string, rest: string)
    ensures IsActive(Some(href), href)
    ensures IsActive(Some(href + "/" + rest), href)
  {
    var p := href + "/" + rest;
    assert p[..|href + "/"|] == href + "/";
  }

  /** A page whose path does not start with the link's href never activates
      it. */
  lemma ActiveOnlyUnderHref(href: string, p: string)
    ensures IsActive(Some(p), href) ==> Text.StartsWith(p, href)
  {
    if Text.StartsWith(p, href + "/") {
      assert p[..|href|] == p[..|href + "/"|][..|href|];
    }
  }

  /** A page that shares the link's prefix but continues with anything other
      than '/' does not activate it: "/certificatesX" is not under
      "/certificates". */
  lemma SiblingNotActive(href: string, p: string)
    requires Text.StartsWith(p, href) && |p| > |href| && p[|href|] != '/'
    ensures !IsActive(Some(p), href)
  {
  }

  /** Home is active only on "/" itself and on paths starting "//"; in
      particular "/certificates" does not activate it. */
  lemma HomeOnlyAtRoot(p: string)
    ensures IsActive(Some(p), Home.href) <==> p == "/" || Text.StartsWith(p, "//")
    ensures !IsActive(Some("/certificates"), Home.href)
  {
    assert Home.href + "/" == "//";
    SiblingNotActive("/", "/certificates");
  }

  /** No page activates both menu links. */
  lemma AtMostOneActive(p: string)
    ensures !(IsActive(Some(p), Home.href) && IsActive(Some(p), CertificatesLink.href))
  {
    HomeOnlyAtRoot(p);
    if IsActive(Some(p), CertificatesLink.href) {
      assert |p| >= 13 && p[1] == 'c' by {
        if p == "/certificates" {
        } else {
          assert p[..14] == "/certificates/";
          assert p[1] == p[..14][1];
        }
      }
    }
  }
}
