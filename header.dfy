// The site header's navigation: the current path with the deployment base
// path stripped, and which of the four navigation links is active.

module Header {
  import opened JsValues

  /** `currentPath`: the pathname (empty when there is none) with the base
    * path (empty when unset) removed from its front when it starts with it. */
  function CurrentPath(pathname: Option<string>, base: Option<string>): (r: string)
    ensures var p := if pathname.Some? then pathname.value else "";
            var b := if base.Some? then base.value else "";
            (StartsWith(p, b) ==> b + r == p) && (!StartsWith(p, b) ==> r == p)
  {
    var p := if pathname.Some? then pathname.value else "";
    var b := if base.Some? then base.value else "";
    if StartsWith(p, b) then
      assert p == p[..|b|] + p[|b|..];
      p[|b|..]
    else p
  }

  /** Without a base path (unset or empty) the current path is the pathname,
    * and a missing pathname is the empty path. */
  lemma CurrentPathWithoutBase(pathname: Option<string>, base: Option<string>)
    requires base == None || base == Some("")
    ensures CurrentPath(pathname, base) == if pathname.Some? then pathname.value else ""
  {
    var p := if pathname.Some? then pathname.value else "";
    assert StartsWith(p, "");
  }

  /** `isActive(href)`: the current path is the link's route or lies below it. */
  predicate IsActive(currentPath: string, href: string) {
    currentPath == href || StartsWith(currentPath, href + "/")
  }

  /** The navigation links, in display order. */
  const NavHrefs: seq<string> := ["/about", "/contact", "/works", "/behind"]

  /** Two routes active on the same path are equal, or one of them lies below
    * the other. */
  lemma {:induction false} ActiveNested(c: string, a: string, b: string)
    requires IsActive(c, a) && IsActive(c, b) && |a| <= |b|
    ensures a == b || StartsWith(b, a + "/")
  {
    assert b == c[..|b|];
    assert a == c[..|a|];
    if a != b {
      assert |a| < |b|;
      assert c != a;
      assert c[..|a| + 1] == a + "/";
      assert b[..|a| + 1] == c[..|a| + 1];
    }
  }

  /** No navigation route lies below another one. */
  lemma NavHrefsFlat(i: nat, j: nat)
    requires i < |NavHrefs| && j < |NavHrefs| && i != j
    ensures NavHrefs[i] != NavHrefs[j] && !StartsWith(NavHrefs[j], NavHrefs[i] + "/")
  {
    var a := NavHrefs[i];
    var b := NavHrefs[j];
    assert a[0] == '/' && b[0] == '/';
    assert forall k :: 1 <= k < |b| ==> b[k] != '/';
    assert a[1] != b[1];
  }

  /** Whatever the current path, at most one navigation link is active. */
  lemma AtMostOneActive(currentPath: string, i: nat, j: nat)
    requires i < |NavHrefs| && j < |NavHrefs| && i != j
    requires IsActive(currentPath, NavHrefs[i])
    ensures !IsActive(currentPath, NavHrefs[j])
  {
    if IsActive(currentPath, NavHrefs[j]) {
      NavHrefsFlat(i, j);
      NavHrefsFlat(j, i);
      if |NavHrefs[i]| <= |NavHrefs[j]| {
        ActiveNested(currentPath, NavHrefs[i], NavHrefs[j]);
      } else {
        ActiveNested(currentPath, NavHrefs[j], NavHrefs[i]);
      }
    }
  }

  /** A page below a route activates it; a route that only shares its
    * letters does not. */
  lemma ActiveExamples()
    ensures IsActive("/works/x", "/works")
    ensures !IsActive("/worksx", "/works")
  {
    assert "/works/x"[..7] == "/works/";
    assert "/worksx"[..7] != "/works/" by {
      assert "/worksx"[6] != "/works/"[6];
    }
  }

  /** The base path is removed by a plain prefix test, not at a segment
    * boundary: with base "/a" the page "/about" becomes "bout", which
    * activates no navigation link. */
  lemma BaseCutsMidSegment()
    ensures CurrentPath(Some("/about"), Some("/a")) == "bout"
    ensures forall i :: 0 <= i < |NavHrefs| ==> !IsActive("bout", NavHrefs[i])
  {
    assert StartsWith("/about", "/a") by {
      assert "/about"[..2] == "/a";
    }
    assert "/about"[2..] == "bout";
    forall i | 0 <= i < |NavHrefs|
      ensures !IsActive("bout", NavHrefs[i])
    {
      assert NavHrefs[i][0] == '/' && "bout"[0] == 'b';
    }
  }
}
