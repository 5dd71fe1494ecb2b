/** The trade app's edge middleware, peer of the marketing app's. */
module TradeMiddleware {
  import opened Basics
  import opened Strings
  import opened Registry
  import opened WebMiddleware

  const MARKETING_PREFIXES: set<string> := {
    "/about", "/contact", "/tools", "/analytics", "/education", "/docs", "/brand", "/privacy-policy",
    "/aml-policy", "/kyc-policy", "/terms-of-service"
  }

  predicate TradeBounces(path: string) {
    path != "/brand/logo.svg" && (path == "/" || exists p :: p in MARKETING_PREFIXES && Under(path, p))
  }

  predicate IsLocalAuthority(host: string) {
    var n := StripPort(Lower(host));
    WithinApex(n, "localhost") || WithinApex(n, "127.0.0.1") || WithinApex(n, "[::1]")
  }

  /** The first label is "trade", in any case. */
  predicate HasTradeLabel(host: string) {
    |host| >= 6 && Lower(host[..6]) == "trade."
  }

  function StripTradeLabel(host: string): string {
    if HasTradeLabel(host) then host[6..] else host
  }

  /** Where the trade app sends a marketing path asked for on `host`. */
  function MarketingOrigin(site: Site, host: string): Option<Authority> {
    if IsLocalAuthority(host) then
      var brand := LocalDevelopmentHost(host);
      Some(if brand.Some? && StripTradeLabel(brand.value) != ""
           then WithHostname(site.webDevOrigin, StripTradeLabel(brand.value))
           else site.webDevOrigin)
    else if StripTradeLabel(host) != host then Some(UrlAuthority(StripTradeLabel(host)))
    else None
  }

  /** The authority a request is bounced to, with path and query kept; None when the trade app serves it. */
  function TradeRedirect(site: Site, host: string, path: string): Option<Authority> {
    if TradeBounces(path) then MarketingOrigin(site, host) else None
  }
}
