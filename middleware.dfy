/**
 * The request middleware: signed-in users are kept off the login and signup
 * pages, and everyone else is sent to the login page. A request is reduced to
 * its path and whether it carries a `user` cookie.
 */
module Middleware {
  import opened JsBuiltins

  datatype Decision = Redirect(path: string) | Next

  /** The prefix test: any path starting with "/login" or "/signup". */
  predicate IsAuthPage(pathname: string): (b: bool)
    ensures b <==> exists rest :: pathname == "/login" + rest || pathname == "/signup" + rest
  {
    assert StartsWith(pathname, "/login") ==> pathname == "/login" + pathname[|"/login"|..];
    assert StartsWith(pathname, "/signup") ==> pathname == "/signup" + pathname[|"/signup"|..];
    StartsWith(pathname, "/login") || StartsWith(pathname, "/signup")
  }

  /** `middleware`: the decision for a path and the presence of a `user` cookie. */
  function Decide(pathname: string, hasUserCookie: bool): (d: Decision)
    ensures d == Redirect("/annotate") <==> IsAuthPage(pathname) && hasUserCookie
    ensures d == Redirect("/login") <==> !IsAuthPage(pathname) && !hasUserCookie
    ensures d == Next <==> IsAuthPage(pathname) != hasUserCookie
  {
    if IsAuthPage(pathname) && hasUserCookie then Redirect("/annotate")
    else if !hasUserCookie && !IsAuthPage(pathname) then Redirect("/login")
    else Next
  }

  /** The prefix test: "/login", "/signup" and any path starting with either are auth pages; "/annotate" and its subpages are not. */
  lemma AuthPages()
    ensures IsAuthPage("/login") && IsAuthPage("/signup") && IsAuthPage("/loginx")
    ensures !IsAuthPage("/annotate") && !IsAuthPage("/")
  {
    assert "/loginx"[..|"/login"|] == "/login";
    assert "/annotate"[1] != "/login"[1] && "/annotate"[1] != "/signup"[1];
  }

  /** Following a redirect with the same cookie is never redirected again. */
  lemma NoRedirectLoop(pathname: string, hasUserCookie: bool)
    ensures Decide(pathname, hasUserCookie).Redirect? ==>
      Decide(Decide(pathname, hasUserCookie).path, hasUserCookie) == Next
  {
    AuthPages();
  }

  /** `config.matcher`: "/annotate" with any sub-path, "/login" and "/signup". */
  predicate Matched(pathname: string): (b: bool)
    ensures IsAnnotatePage(pathname) ==> b
    ensures b ==> IsAnnotatePage(pathname) != IsAuthPage(pathname)
    ensures b && IsAuthPage(pathname) ==> pathname == "/login" || pathname == "/signup"
  {
    AuthPages();
    AnnotatePagesAreNotAuthPages(pathname);
    pathname == "/annotate" || StartsWith(pathname, "/annotate/") || pathname == "/login" || pathname == "/signup"
  }

  /** The annotate pages: "/annotate" and the paths under it. */
  predicate IsAnnotatePage(pathname: string) {
    pathname == "/annotate" || StartsWith(pathname, "/annotate/")
  }

  /** No annotate page passes the auth-page prefix test. */
  lemma AnnotatePagesAreNotAuthPages(pathname: string)
    ensures IsAnnotatePage(pathname) ==> !IsAuthPage(pathname)
  {
    if IsAnnotatePage(pathname) && pathname != "/annotate" {
      assert pathname[1] == "/annotate/"[1];
    }
    AuthPages();
  }

  /**
   * A request as the application sees it: the middleware decides on matched
   * paths, and every other path goes through untouched. A signed-in user is
   * sent from "/login" or "/signup" to "/annotate", and a visitor without the
   * cookie from an annotate page to "/login".
   */
  function Route(pathname: string, hasUserCookie: bool): (d: Decision)
    ensures d == Redirect("/annotate") <==> (pathname == "/login" || pathname == "/signup") && hasUserCookie
    ensures d == Redirect("/login") <==> IsAnnotatePage(pathname) && !hasUserCookie
    ensures !Matched(pathname) ==> d == Next
  {
    AuthPages();
    AnnotatePagesAreNotAuthPages(pathname);
    if Matched(pathname) then Decide(pathname, hasUserCookie) else Next
  }

  /** Following a redirect of a matched request with the same cookie is never redirected again. */
  lemma RouteNoRedirectLoop(pathname: string, hasUserCookie: bool)
    ensures Route(pathname, hasUserCookie).Redirect? ==>
      Route(Route(pathname, hasUserCookie).path, hasUserCookie) == Next
  {
    assert IsAnnotatePage("/annotate");
    assert !IsAnnotatePage("/login") by {
      assert "/login"[1] != "/annotate/"[1];
    }
    var _ := Route("/annotate", hasUserCookie);
    var _ := Route("/login", hasUserCookie);
  }
}
