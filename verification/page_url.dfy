/** What the polling loop concludes from the address of the main frame. */
module PageUrl {
  import opened Text

  const SSO_HOST := "sso.cloud.pje.jus.br"

  const CONFIGURE_TOTP_MARKER := "CONFIGURE_TOTP"

  const PORTAL_HOST := "www.jus.br"

  const SERVICES_HOST := "portaldeservicos.pdpj.jus.br"

  predicate NamesPortal(s: string) {
    Contains(s, PORTAL_HOST) || Contains(s, SERVICES_HOST)
  }

  predicate NamesSso(s: string) {
    Contains(s, SSO_HOST)
  }

  /** isAuthenticatedURL */
  predicate IsAuthenticatedUrl(cur: string) {
    cur != "" && !NamesSso(cur) && NamesPortal(cur)
  }

  /** A test by substring: an address counts when one of the two portal names is somewhere inside
      and the SSO host is nowhere, be it as the target of a redirect. */
  lemma AuthenticatedMeans(cur: string)
    ensures IsAuthenticatedUrl(cur) <==>
              && (exists a, b :: cur == a + PORTAL_HOST + b || cur == a + SERVICES_HOST + b)
              && !exists a, b :: cur == a + SSO_HOST + b
  {
    ContainsMeans(cur, SSO_HOST);
    ContainsMeans(cur, PORTAL_HOST);
    ContainsMeans(cur, SERVICES_HOST);
    hide Contains;
  }

  // The test by substring, and the host.

  /** What ends the host of an address, section 3.2 of RFC 3986. */
  const DELIMITERS := {'/', '?', '#'}

  /** The path, query and fragment of an address. */
  predicate IsTail(rest: string) {
    rest != "" ==> rest[0] in DELIMITERS
  }

  lemma NamesApart(front: string, rest: string)
    requires IsTail(rest)
    ensures NamesSso(front + rest) <==> NamesSso(front) || NamesSso(rest)
    ensures NamesPortal(front + rest) <==> NamesPortal(front) || NamesPortal(rest)
  {
    hide Contains;
    ContainsApart(front, rest, SSO_HOST, DELIMITERS);
    ContainsApart(front, rest, PORTAL_HOST, DELIMITERS);
    ContainsApart(front, rest, SERVICES_HOST, DELIMITERS);
  }

  /** What comes after the host has no say in the test if and only if the SSO host is named
      before it, or the portal is named before it and the SSO host is not after it, or the
      portal is named nowhere but beside the SSO host. */
  lemma FrontDecidesExactlyWhen(front: string, rest: string)
    requires IsTail(rest)
    ensures (IsAuthenticatedUrl(front + rest) <==> IsAuthenticatedUrl(front)) <==>
              || NamesSso(front)
              || (if NamesPortal(front) then !NamesSso(rest) else NamesPortal(rest) ==> NamesSso(rest))
  {
    NamesApart(front, rest);
    NamesNeedText(front + rest);
    NamesNeedText(front);
    hide NamesSso, NamesPortal;
  }

  lemma NamesNeedText(s: string)
    ensures |s| < 10 ==> !NamesPortal(s) && !NamesSso(s)
  {
    hide Contains;
    if |s| < 10 {
      LongerIsNotContained(s, PORTAL_HOST);
      LongerIsNotContained(s, SERVICES_HOST);
      LongerIsNotContained(s, SSO_HOST);
    }
  }

  /** The host is one of the two that a finished login leads to. */
  predicate IsPortalHost(host: string) {
    host == PORTAL_HOST || host == SERVICES_HOST
  }

  /** The address of a page. */
  function Address(host: string, rest: string): string {
    "https://" + host + rest
  }

  lemma NamesInAddress(host: string, rest: string)
    requires IsTail(rest)
    ensures NamesSso(Address(host, rest)) <==> NamesSso(host) || NamesSso(rest)
    ensures NamesPortal(Address(host, rest)) <==> NamesPortal(host) || NamesPortal(rest)
  {
    NamesApart("https://" + host, rest);
    assert "https://" + host == "https:" + ("//" + host);
    NamesApart("https:", "//" + host);
    NamesNeedText("https:");
    BehindSlash("/" + host);
    BehindSlash(host);
    assert "//" + host == "/" + ("/" + host);
    hide NamesSso, NamesPortal;
  }

  lemma BehindSlash(s: string)
    ensures NamesSso("/" + s) <==> NamesSso(s)
    ensures NamesPortal("/" + s) <==> NamesPortal(s)
  {
    hide Contains;
    ContainsBehind('/', s, SSO_HOST);
    ContainsBehind('/', s, PORTAL_HOST);
    ContainsBehind('/', s, SERVICES_HOST);
  }

  lemma ServicesIsNotSso()
    ensures !NamesSso(SERVICES_HOST)
  {
    hide Contains;
    var host := SERVICES_HOST;
    assert host[..13] == "portaldeservi";
    MissingIsNotContained(host, SSO_HOST, 4);
  }

  lemma PortalIsNotSso(host: string)
    requires IsPortalHost(host)
    ensures NamesPortal(host) && !NamesSso(host)
  {
    ServicesIsNotSso();
    hide Contains, SERVICES_HOST;
    ContainsInside("", host, "");
    assert "" + host + "" == host;
    LongerIsNotContained(PORTAL_HOST, SSO_HOST);
  }

  /** The test tells the host of an address if and only if, on the portal, the rest does not
      name the SSO host, and elsewhere, something names it or nothing names the portal. */
  lemma HostIsToldExactlyWhen(host: string, rest: string)
    requires IsTail(rest)
    ensures (IsAuthenticatedUrl(Address(host, rest)) <==> IsPortalHost(host)) <==>
              if IsPortalHost(host) then !NamesSso(rest)
              else NamesSso(host) || NamesSso(rest) || !(NamesPortal(host) || NamesPortal(rest))
  {
    NamesInAddress(host, rest);
    if IsPortalHost(host) {
      PortalIsNotSso(host);
    }
    hide NamesSso, NamesPortal, IsPortalHost;
  }

  lemma OffThePortal()
    ensures !NamesSso("example.org") && !NamesPortal("example.org")
  {
    hide Contains;
    var host := "example.org";
    LongerIsNotContained(host, SSO_HOST);
    LongerIsNotContained(host, SERVICES_HOST);
    MissingIsNotContained(host, PORTAL_HOST, 0);
  }

  /** An address off the portal that is accepted. */
  lemma AcceptedOffThePortal()
    ensures var rest := "/?next=https://www.jus.br";
            && !IsPortalHost("example.org") && IsTail(rest)
            && IsAuthenticatedUrl(Address("example.org", rest)) && !IsAuthenticatedUrl(Address("example.org", ""))
  {
    hide Contains;
    var host, rest := "example.org", "/?next=https://www.jus.br";
    NamesInAddress(host, rest);
    NamesInAddress(host, "");
    ContainsInside("/?next=https://", PORTAL_HOST, "");
    assert "/?next=https://" + PORTAL_HOST + "" == rest;
    NamesNeedText("");
    OffThePortal();
    assert rest[..10] == "/?next=htt";
    MissingIsNotContained(rest, SSO_HOST, 4);
  }

  /** An address on the portal that is refused. */
  lemma RefusedOnThePortal()
    ensures var rest := "/?iss=https://sso.cloud.pje.jus.br/";
            && IsPortalHost("www.jus.br") && IsTail(rest)
            && !IsAuthenticatedUrl(Address("www.jus.br", rest)) && IsAuthenticatedUrl(Address("www.jus.br", ""))
  {
    hide Contains;
    var rest := "/?iss=https://sso.cloud.pje.jus.br/";
    NamesInAddress(PORTAL_HOST, rest);
    NamesInAddress(PORTAL_HOST, "");
    PortalIsNotSso(PORTAL_HOST);
    NamesNeedText("");
    ContainsInside("/?iss=https://", SSO_HOST, "/");
    assert "/?iss=https://" + SSO_HOST + "/" == rest;
  }

  /** isConfigureTOTPURL */
  predicate IsConfigureTotpUrl(cur: string) {
    Contains(cur, CONFIGURE_TOTP_MARKER)
  }

  /** isGovBrURL */
  predicate IsGovBrUrl(cur: string) {
    Contains(cur, "sso.acesso.gov.br")
  }

  /** shouldAttemptTOTPEnroll */
  predicate ShouldAttemptTotpEnroll(cur: string, alreadyEnrolled: bool) {
    IsConfigureTotpUrl(cur) && !alreadyEnrolled
  }
}
