// The main content container: the "behind" section gets a smaller top
// padding than every other page.

module MainContainer {
  import opened JsValues
  import Header

  /** `isBehind`: the pathname is exactly "/behind" or lies below it. */
  predicate IsBehind(pathname: Option<string>) {
    pathname == Some("/behind") || (pathname.Some? && StartsWith(pathname.value, "/behind/"))
  }

  /** `paddingTopClass`: "pt-20" on the behind section, "pt-40" elsewhere. */
  function PaddingTopClass(pathname: Option<string>): (r: string)
    ensures r == "pt-20" || r == "pt-40"
    ensures r == "pt-20" <==> IsBehind(pathname)
  {
    if IsBehind(pathname) then "pt-20" else "pt-40"
  }

  /** A missing pathname is never the behind section. */
  lemma NoPathNotBehind()
    ensures !IsBehind(None)
    ensures PaddingTopClass(None) == "pt-40"
  {
  }

  /** The container's test agrees with the header's active test for the
    * "/behind" link on the raw pathname. */
  lemma BehindIsActive(pathname: string)
    ensures IsBehind(Some(pathname)) <==> Header.IsActive(pathname, "/behind")
  {
    assert "/behind" + "/" == "/behind/";
  }

  /** A page below "/behind" is behind; a path that only begins with the
    * letters "/behind" is not. */
  lemma BehindExamples()
    ensures IsBehind(Some("/behind/2024"))
    ensures !IsBehind(Some("/behindx"))
  {
    assert "/behind/2024"[..8] == "/behind/";
    assert "/behindx"[7] != "/behind/"[7];
  }
}
