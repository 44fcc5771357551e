/**
 * The request filter each valuation page installs before navigating: heavy
 * resource types and two analytics domains are aborted, everything else
 * continues unmodified.
 */
module Routing {

  const BlockedTypes: set<string> := {"image", "stylesheet", "font", "media"}
  const BlockedDomains: seq<string> := ["google-analytics.com", "doubleclick.net"]

  datatype RouteAction = Abort | Continue

  /** `sub` occurs in `s` starting at index `i`. */
  predicate OccursAt(s: string, sub: string, i: nat) {
    i + |sub| <= |s| && s[i..i + |sub|] == sub
  }

  /** `s.includes(sub)`, scanning from the front. */
  function Includes(s: string, sub: string): (b: bool)
    ensures b <==> exists i: nat :: OccursAt(s, sub, i)
    decreases |s|
  {
    if |sub| > |s| then
      assert forall i: nat :: !OccursAt(s, sub, i);
      false
    else if s[..|sub|] == sub then
      assert OccursAt(s, sub, 0);
      true
    else
      var rest := Includes(s[1..], sub);
      assert forall i: nat :: OccursAt(s[1..], sub, i) <==> OccursAt(s, sub, i + 1) by {
        forall i: nat ensures OccursAt(s[1..], sub, i) <==> OccursAt(s, sub, i + 1) {
          if i + 1 + |sub| <= |s| {
            assert s[1..][i..i + |sub|] == s[i + 1..i + 1 + |sub|];
          }
        }
      }
      assert rest ==> exists i: nat :: OccursAt(s, sub, i) by {
        if rest {
          var i: nat :| OccursAt(s[1..], sub, i);
          assert OccursAt(s, sub, i + 1);
        }
      }
      assert (exists i: nat :: OccursAt(s, sub, i)) ==> rest by {
        if exists i: nat :: OccursAt(s, sub, i) {
          var i: nat :| OccursAt(s, sub, i);
          assert i != 0;
          assert OccursAt(s[1..], sub, i - 1);
        }
      }
      rest
  }

  /** `domains.some(domain => url.includes(domain))`. */
  function AnyIncluded(url: string, domains: seq<string>): (b: bool)
    ensures b <==> exists k :: 0 <= k < |domains| && Includes(url, domains[k])
  {
    if domains == [] then false
    else if Includes(url, domains[0]) then true
    else
      var rest := AnyIncluded(url, domains[1..]);
      assert forall k :: 1 <= k < |domains| ==> domains[k] == domains[1..][k - 1];
      rest
  }

  /**
   * The decision taken for one intercepted request: abort exactly when its
   * resource type is blocked or its URL contains a blocked domain.
   */
  function Route(resourceType: string, url: string): (a: RouteAction)
    ensures a == Abort <==>
      || resourceType in {"image", "stylesheet", "font", "media"}
      || (exists i: nat :: OccursAt(url, "google-analytics.com", i))
      || (exists i: nat :: OccursAt(url, "doubleclick.net", i))
  {
    var domainHit := AnyIncluded(url, BlockedDomains);
    assert domainHit <==> Includes(url, BlockedDomains[0]) || Includes(url, BlockedDomains[1]);
    if resourceType in BlockedTypes || domainHit then Abort else Continue
  }

  /** Every request of a blocked type is aborted, whatever its URL. */
  lemma BlockedTypeAborts(resourceType: string, url: string)
    requires resourceType in BlockedTypes
    ensures Route(resourceType, url) == Abort
  {
  }

  /** A script or document request from a URL that mentions neither domain is let through. */
  lemma PlainRequestContinues(url: string)
    requires forall i: nat :: !OccursAt(url, "google-analytics.com", i)
    requires forall i: nat :: !OccursAt(url, "doubleclick.net", i)
    ensures Route("script", url) == Continue
    ensures Route("document", url) == Continue
  {
  }

  /** A tracking request hidden inside a longer URL is still aborted. */
  lemma TrackerInsideUrlAborts(prefix: string, suffix: string)
    ensures Route("xhr", prefix + "doubleclick.net" + suffix) == Abort
  {
    var url := prefix + "doubleclick.net" + suffix;
    assert url[|prefix|..|prefix| + |"doubleclick.net"|] == "doubleclick.net";
    assert OccursAt(url, "doubleclick.net", |prefix|);
  }
}
