/** Which entry of the site navigation is highlighted for the current location. */
module Navigation {

  /** `s.startsWith(prefix)`: the first |prefix| characters of `s` are those of `prefix`,
      compared one by one. */
  function StartsWith(s: string, prefix: string): (b: bool)
    ensures b <==> |prefix| <= |s| && forall i :: 0 <= i < |prefix| ==> s[i] == prefix[i]
  {
    if prefix == [] then true
    else if s == [] then false
    else
      assert forall i :: 1 <= i < |prefix| ==> prefix[i] == prefix[1..][i - 1];
      assert forall i :: 1 <= i < |s| ==> s[i] == s[1..][i - 1];
      s[0] == prefix[0] && StartsWith(s[1..], prefix[1..])
  }

  /** `startsWith` is the prefix relation on strings. */
  lemma StartsWithIsPrefix(s: string, prefix: string)
    ensures StartsWith(s, prefix) <==> prefix <= s
  {
    if StartsWith(s, prefix) {
      assert s[..|prefix|] == prefix;
    }
  }

  /** `isActive(href)` at `location`: the home link only on the home page itself, every other
      link on any location that begins with it. */
  function IsActive(location: string, href: string): (b: bool)
    ensures href == "/" ==> (b <==> location == "/")
    ensures href != "/" ==> (b <==> href <= location)
  {
    StartsWithIsPrefix(location, href);
    if href == "/" then location == "/" else StartsWith(location, href)
  }

  /** Every link is highlighted on its own page. */
  lemma ActiveOnOwnPage(href: string)
    ensures IsActive(href, href)
  {
  }

  /** The test is textual: "/about" is also highlighted at "/aboutus" and "/about/x", where
      the home link is not. */
  lemma TextualMatching()
    ensures IsActive("/aboutus", "/about") && IsActive("/about/x", "/about")
    ensures !IsActive("/aboutus", "/") && !IsActive("/about/x", "/")
    ensures !IsActive("/", "/about") && !IsActive("/contact", "/about")
  {
    assert "/about" <= "/aboutus";
    assert "/about" <= "/about/x";
    assert "/about"[1] != "/contact"[1];
  }

  /** The navigation entries, in menu order. */
  function NavItems(): seq<(string, string)> {
    [("/", "Home"), ("/about", "About"), ("/contact", "Contact")]
  }

  /** At most one menu entry is highlighted at any location. */
  lemma AtMostOneActive(location: string, i: int, j: int)
    requires 0 <= i < j < |NavItems()|
    requires IsActive(location, NavItems()[i].0)
    ensures !IsActive(location, NavItems()[j].0)
  {
    var a, c := NavItems()[i].0, NavItems()[j].0;
    if i == 0 {
      assert location == "/";
    } else {
      assert a == "/about" && c == "/contact";
      assert location[1] == a[1] != c[1];
    }
  }
}
