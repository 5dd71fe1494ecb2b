# Blackforrest: verified models

Dafny models of the platform's request routing, malware-scan gateway, sign-in tokens, role sync and the CRM's
list-shaping code, with proofs of what they promise over every input, every run and every reachable state.

`dafny verify dfyconfig.toml` checks everything.

## What is modelled

**Routing between the two apps.** `WebMiddleware` is the marketing app's middleware as a function from request to
answer, `TradeMiddleware` its peer, `Registry` the host resolution both use. `MiddlewareAnswers` says when each of
them gives which answer, with the path families written out, and `HostNames` what the host-name operations compute.
`RoutingChain` puts the apps and a browser together: a visit is one middleware run, a redirect starts a new visit, a
rewrite re-enters the middleware with the `x-locale-resolved` marker. `RoutingTheorems` proves that chains end, and
exactly when, `RoutingBounds` within how many hops that is decided, `RoutingPrefixes` what a locale prefix changes;
`RoutingPreservation` proves what a redirect keeps. `CookieText` and `CookieHeader` treat the Cookie header as text;
`LocaleSettling` adds the browser's cookie jar and proves where a public page ends up and in which language.
`RoutingTargets` says which hosts a redirect can name. `Deployments` shows that ordinary configurations meet the assumptions, and `FailingInputs`
gives one concrete input for each of the shortcomings below.

Assumptions, each a predicate in the code:

- `Configured`: apexes are normalised names (lower case, no port, no `www.`) and the marketing app answers the
  canonical one.
- `WellFormedSite`, `WellFormed`: moreover no trade host is an apex, every family's trade host is a trusted plain name
  that is not an apex, the marketing app answers every apex on each port it answers at all, and each development origin
  belongs to its own app, under any name. `Deployments.DeploymentIsWellFormed` shows that any list of simple domain
  names with the default label and ports meets all of this. `SettlesIffHostRoutingRests` and `UnroutedSettlesIff` say
  exactly what happens in deployments that are configured and no more.
- `CleanPath`: the path begins with one slash and contains no two slashes in a row, which is what Next.js hands to a
  middleware. The answers, settling and locale results need it; `RoutingTargets` covers every path, and the inputs
  with two slashes in a row reach the handler only outside that normalisation.
- `NamesAreSettable`, `Routable`: apexes and trade hosts are names the hostname setter accepts; for `Routable` also none
  of them is a development host.
- A visit is to a URL, so its host is an `Authority`: a name with or without a port, without delimiters and user part.
  Host headers are arbitrary text; `UrlAuthority` is what the URL parser reads in them and `WithHostname` what the
  hostname setter does.
- Being signed in is fixed per host during a chain. The locale cookie read and the origin verdict may differ at every
  visit. Which hosts the trade app answers is an arbitrary predicate.

The handler writes the stripped path to `req.nextUrl` and then lets `domainRedirect` read `req.url`. The comment at
`apps/web/src/middleware.ts:272` says routing works on the stripped path; whether the framework keeps the two in step
is not visible in the repository. The flag `urlFollows` covers both readings and every theorem holds for both.

**The scanner gateway.** `BodyReader` and `ScanPromise` are the two promises, as classes whose handlers are proved
against step functions; `Instream` is the framer together with a decoder written from clamd's side; `ScannerGateway`
maps outcomes to answers and states the end-to-end results.

**Sign-in.** `AuthSessions` runs logins, requests, sign-outs, revocations, copied tokens and time over the jwt and
session callbacks and the security-session table.

**CRM.** `ReplyQuote`, `FieldKeys`, `ActivityStrips`, `RecencyLists`, `PieReport`, `RoleSync`, `ImportMapping`,
`DayGroups` and `TableState`, one module per component. Code that assigns is a class or a loop proved against a
specification function; the results are lemmas about that function. `Lists` says what filtering a list means; every
filter in the models is shown to do that.

## Where the code falls short of its comments

- `RoleSync.AdminSyncsIff`: the ADMIN definition lists `ADMIN_ACCESS` and then the catalogue, which lists it again
  (`apps/crm/src/server/permissions.ts:86`, `:128`). The set of held permissions is read once before the create loop,
  so on a database whose ADMIN role lacks the permission the second create meets the unique constraint. The sync
  succeeds exactly when the row is already there. `RoleSync.SyncSpec` gives the condition for any definitions.
- `LocaleSettling.PublicPageSettles`: an unprefixed URL is documented as the canonical English page
  (`apps/web/src/middleware.ts:265`). Without a locale cookie it renders in the Accept-Language locale, and a cookie
  such as `fr-CA` or `fr=x` is not localised by the middleware but renders as French. A prefixed page renders in another
  language when the header edit misses. `LanguagesAgree` is the exact condition. Where one brand domain lies below
  another, a locale write reaches only the first of them in list order, and the other's cookie may move the canonical
  page on (`LocaleSettling.StampedLocaleIsSent`).
- `CookieHeader.InjectionIsCorrectIff`: the header edit replaces the first textual match, so a cookie whose name ends
  in `NEXT_LOCALE` or whose value holds the marker, and which comes first, is the one changed. `MarkerIsOurs` is the
  exact condition.
- `RoutingTargets.LocaleMoveKeepsOriginIff`: a URL reference that begins with two slashes is resolved against its
  own authority (section 4.2 of RFC 3986), so a locale move keeps the origin exactly when the stripped path does not.
- `RoutingTargets.HeadersKeepTargetsInsideIff`: redirect targets are meant never to echo an untrusted host
  (`apps/web/src/middleware.ts:90-93`). But `isLocalHost` accepts every name that extends `127.0.0.1` and every dotted
  quad (`apps/web/src/platform/registry.ts:180-187`), and `hostIsTrusted` looks at the end of the header while the URL
  parser stops at its first delimiter (`apps/web/src/middleware.ts:98`, `:137`). `Misread` and `MisreadBrand` are the
  exact conditions on the host; without delimiters they come down to `PassesAsLocal`.
- `RoutingPreservation.FamilyRoundTrip`: the registry reads a blank `TRADE_SUBDOMAIN` as `trade` and lower-cases it
  (`apps/web/src/platform/registry.ts:163`), the middleware takes it as it is (`apps/web/src/middleware.ts:158`), so
  visitors of the trade host are brought back exactly when `LabelsAgree`.
- `RoutingTheorems.SettlesIffHostRoutingRests`: trade-host overrides that lead back to an apex, its own or another's,
  make sign-in pages redirect forever. The exact condition is that host routing of the path comes to rest, which
  `RoutingBounds` decides within a number of hops computed from the configuration.
- `ActivityStrips.RefreshKeepsIff`: merging by id is meant to cope with refreshes that shift page boundaries
  (`apps/crm/src/components/RecordActivities.tsx:87`). No item is shown twice, but an item that a refresh pushes off
  page one is lost unless it was appended before.
- `DayGroups.GroupingsAgreeIff`: the timeline's grouping and the notification center's agree exactly when each day's
  rows are consecutive.

## Model

| member | source | states |
|---|---|---|
| RoutingTheorems.EveryRequestSettles | apps/web/src/middleware.ts:271-394 | in a well-formed deployment of both apps every chain of redirects and re-entering rewrites ends, for all hosts, paths, cookies and sign-in states, within the leading locale segments plus the leading trade labels plus 36 |
| RoutingTheorems.WebRequestsSettle | apps/web/src/middleware.ts:271-394 | a chain that begins at the marketing app ends within the leading locale segments plus 35 |
| RoutingTheorems.SettlesIffHostRoutingRests | apps/web/src/middleware.ts:154-215 | in any configured deployment an unprefixed request, sign-in pages included, settles if and only if following host routing alone from its host comes to rest (all paths but the next row's) |
| RoutingTheorems.UnroutedSettlesIff | apps/web/src/middleware.ts:359-393 | a protected page outside the trade families, such as `/tradex`, settles if and only if the trade app serves it, the sign-in page can be reached, or the visitor is signed in wherever a locale cookie may lead |
| RoutingPrefixes.PrefixedSettlesIff | apps/web/src/middleware.ts:269-331 | a prefixed URL settles at once on a host of the trade app; on the marketing app if and only if the unprefixed visit its locale moves lead to settles, or, where host routing sees the stripped path, its bounces come to rest |
| RoutingBounds.TradeVisitSettlesIff | apps/web/src/middleware.ts:187-195 | for deployments of plain names, whether a visit to a trade path settles is decided by following host routing for 2n + 1 hops, n being the number of apexes |
| RoutingBounds.RestsWithinList | apps/web/src/middleware.ts:187-195 | inside a list of hosts closed under routing, as many hops as it is long decide whether a host comes to rest |
| RoutingTheorems.RestingSettles | apps/web/src/middleware.ts:271-394 | host routing that rests within n hops, for the page and for signing in if the page may ask for it, bounds the whole chain by locale segments plus 12n + 11 |
| RoutingTheorems.SelfRoutedNeverSettles | apps/web/src/middleware.ts:190-195 | a family whose trade host is its own apex redirects its sign-in page forever |
| RoutingTheorems.WellFormedSignInRests | apps/web/src/middleware.ts:166-195 | from any host the sign-in path rests after at most two hops, in production or development |
| RoutingTheorems.MarketingBounceLands | apps/web/src/middleware.ts:203-212 | a marketing bounce lands on an apex that the marketing app answers and that keeps the path |
| RoutingTheorems.WellFormedMarketingRests | apps/trade/src/middleware.ts:35-53 | a marketing path rests after at most the host's leading trade labels plus two hops, nested trade hosts included |
| RoutingChain.StepKinds | apps/web/src/middleware.ts:271-394 | every redirect or rewrite is one of five moves, each with its exact effect on host, path, query and marker |
| RoutingChain.StepPays | apps/web/src/middleware.ts:271-394 | every move keeps the invariant of the chain and strictly lowers the budget of sign-in, host and locale moves |
| RoutingChain.BounceSeesCore | apps/web/src/middleware.ts:272-287 | whichever path host routing is shown, a bounce is decided by the path without its locale prefix |
| RoutingChain.UnrecognisedIsRouted | apps/web/src/middleware.ts:109-116 | a host replaced by the canonical apex always has its sign-in page routed away |
| RoutingChain.PrefixThenStrip | apps/web/src/middleware.ts:269-280 | stripping undoes prefixing, for every locale and path |
| RoutingChain.LocaleMoves | apps/web/src/middleware.ts:301-331 | a prefixed request that may stay is redirected (308, cookie stamped) or rewritten to its stripped path on the real origin |
| RoutingChain.GateMoves | apps/web/src/middleware.ts:375-393 | the sign-in redirects: when, to which page of the same origin, with which callback |
| MiddlewareAnswers.UnprefixedAnswers | apps/web/src/middleware.ts:333-393 | every answer to an unprefixed request that host routing lets stay, each if and only if, with the page families written out: moved to the cookie's locale, sent to sign in, sent to the account, refused with 403 or 401, served |
| MiddlewareAnswers.AssetPasses | apps/web/src/middleware.ts:342-357 | a public asset is served at its own URL whatever the cookies and the sign-in |
| MiddlewareAnswers.PrefixedAnswers | apps/web/src/middleware.ts:301-331 | a prefixed request that may stay: English goes to the rest of the path for good and is stamped, every other locale is rewritten to it |
| MiddlewareAnswers.HasLocaleIff | apps/web/src/middleware.ts:269 | a path is prefixed exactly when a supported locale stands after its first slash and a slash or the end after that |
| MiddlewareAnswers.BouncedAnswer | apps/web/src/middleware.ts:287-299 | a request that host routing sends away keeps path and query, its locale prefix included |
| MiddlewareAnswers.RedirectFromIff | apps/web/src/middleware.ts:154-215 | the marketing app sends a request to another host if and only if it is for the trade app and made on an apex or a development host, or for a marketing page and made on a trade host |
| MiddlewareAnswers.RedirectFromTargets | apps/web/src/middleware.ts:165-212 | and to which, on the same port: the family's trade host, the apex whose trade host it is, or the trade app's development origin under the brand's name |
| MiddlewareAnswers.ReferenceBounces | apps/web/src/middleware.ts:181-185 | a path that begins with two slashes is matched without the authority it names, which gives the port; on development hosts it belongs to no app |
| MiddlewareAnswers.ReferenceAnswer | apps/web/src/middleware.ts:181-212 | so the handler sends it to that host with the path behind the authority |
| MiddlewareAnswers.ResolveReference | apps/web/src/middleware.ts:183 | a reference that begins with two slashes names its authority, and from the next slash on its path |
| MiddlewareAnswers.FamilyTradeHostIs | apps/web/src/platform/registry.ts:159-177 | a family's trade host: its override, else the label before its own apex if the override's flag or else its manifest enables trading, else before the canonical one |
| MiddlewareAnswers.RawHostIs | apps/web/src/middleware.ts:109-114 | the host is read from the proxy header up to its first comma, or else from the Host header, in lower case |
| MiddlewareAnswers.RequestHostIs | apps/web/src/middleware.ts:94-116 | a host is kept exactly when it is a development host, an apex or below one, and replaced by the canonical apex otherwise |
| MiddlewareAnswers.TradeRedirectIff | apps/trade/src/middleware.ts:12-53 | for all hosts and paths the trade app sends a request away if and only if it is for a listed page, other than its own logo, on a development host or a host whose first label is "trade" |
| MiddlewareAnswers.TradeRedirectDropsLabel | apps/trade/src/middleware.ts:47-51 | outside development to the host without that label |
| MiddlewareAnswers.TradeRedirectInDevelopment | apps/trade/src/middleware.ts:40-45 | in development to the marketing app's origin, under the brand's name without a leading "trade." if the host names a brand |
| MiddlewareAnswers.TradeHostLeadsHome | apps/trade/src/middleware.ts:12-51 | in a well-formed deployment a marketing page asked for on trade.<apex> goes to the apex in one hop, which keeps it |
| HostNames.StripPortIff | apps/web/src/middleware.ts:95 | stripping gives the name if and only if the text is that name and a port, or has no port |
| HostNames.NormalizeHostIs | apps/web/src/platform/registry.ts:66-70 | the routing host: trimmed, lower-cased, without port and one leading "www." |
| HostNames.LocalDevelopmentHostIff | apps/web/src/platform/registry.ts:73-76 | a development name is a routing host that ends in ".localhost" |
| HostNames.IsLocalHostIff | apps/web/src/platform/registry.ts:180-187 | a local host is "localhost", a text that begins with 127.0.0.1, or four numbers with dots between, and nothing else |
| HostNames.RegistryLabelIs | apps/web/src/platform/registry.ts:163 | the registry's trade label: "trade" if the variable is missing or empty, else the variable trimmed and lower-cased |
| HostNames.UrlAuthorityIff | apps/web/src/middleware.ts:135-138 | the host the URL parser reads in a header is the one after slashes and a user part and before a delimiter |
| HostNames.WithHostnameIs | apps/web/src/middleware.ts:190-210 | setting a hostname takes it up to its first delimiter and keeps the port; an unacceptable name changes nothing |
| Strings.TrimIff | apps/web/src/platform/registry.ts:68 | trimming removes the white space at both ends and nothing else |
| Strings.SpaceIs | deploy/scanner/server.js:64 | white space is what sections 12.2 and 12.3 of ECMA-262 list |
| PathFamilies.FamiliesDisjoint | apps/web/src/middleware.ts:48-88 | over all strings, trade paths meet neither app's marketing paths, and none of them carries a locale prefix |
| RoutingPreservation.NoBounceBackToWeb | apps/trade/src/middleware.ts:12-29 | a path the marketing app hands to the trade app is never handed back |
| RoutingPreservation.NoBounceBackToTrade | apps/web/src/middleware.ts:197-212 | a path the trade app hands out is kept by the marketing app or moved once, to an apex |
| RoutingPreservation.TradeHopDropsOneLabel | apps/trade/src/middleware.ts:47-51 | each trade hop removes exactly one leading trade label |
| RoutingPreservation.DomainRedirectIsLast | apps/web/src/middleware.ts:181-212 | the target of a domain redirect yields no further one |
| RoutingPreservation.FamilyRoundTrip | apps/web/src/middleware.ts:187-212 | without a trade-host override, apex to trade host and back returns to the serving family's apex on the same port, for every family, if and only if registry and middleware agree on the trade label and the trade host is no development host |
| RoutingPreservation.FamilyRoundTripIff | apps/web/src/middleware.ts:187-212 | with overrides too: the visitor returns if and only if the family's normalised trade host is the one the middleware's own label gives it |
| RoutingPreservation.BlankLabelHasNoWayBack | apps/web/src/platform/registry.ts:159-166 | with a blank TRADE_SUBDOMAIN no family's visitor is brought back from the trade host |
| RoutingTargets.TargetInsideIff | apps/web/src/middleware.ts:90-138 | for all headers and paths, when exactly the authority the URL parser reads in a redirect or rewrite is a host of the deployment, where such hosts are defined without the code's own guard |
| RoutingTargets.HeadersKeepTargetsInsideIff | apps/web/src/middleware.ts:90-137 | whatever Host and X-Forwarded-Host are, all targets of paths that spell no authority stay inside if and only if neither the URL parser nor the hostname setter reads a foreign host in the named one |
| RoutingTargets.PlainHostKeepsTargetsInsideIff | apps/web/src/platform/registry.ts:180-187 | for a host without delimiters and user part, if and only if it does not merely extend 127.0.0.1 or is another unconfigured dotted quad |
| RoutingTargets.BounceIsInsideIff | apps/web/src/middleware.ts:165-212 | a bounce names an apex, a family's trade host or a development host if and only if the hostname setter does not cut the brand name of a development host to a foreign one |
| RoutingTargets.LocaleMoveKeepsOriginIff | apps/web/src/middleware.ts:306-328 | for every path a locale move stays on the origin if and only if the stripped path does not begin with two slashes; otherwise it names the authority written in the path |
| RoutingPreservation.RefusalsIff | apps/web/src/middleware.ts:372-389 | exactly when an API call is refused with 403 or 401; it is never redirected to sign in |
| RoutingPreservation.DefaultTradeHostsAreWellFormed | apps/web/src/platform/registry.ts:149-166 | without overrides every plain trade label but `www` gives a well-formed site |
| WebMiddleware.CookieDomain | apps/web/src/middleware.ts:217-225 | the first configured domain that covers the host, or none if none does |
| WebMiddleware.FamilyOfTradeHost | apps/web/src/middleware.ts:208 | the configured domain that has this trade host |
| Deployments.DeploymentIsWellFormed | apps/web/src/platform/registry.ts:52-64 | any list of simple domain names, whichever of them trade, meets the assumptions of the settling theorem |
| Deployments.TwoBrandsSettle | apps/web/src/platform/registry.ts:159-182 | with the repository's two brands every request settles within the bound |
| Deployments.MarketingPagesAreCovered | apps/web/src/middleware.ts:81-88 | every marketing page on an apex is a public page in the sense of the locale results, from any well-formed jar |
| LocaleSettling.PublicPageSettles | apps/web/src/middleware.ts:301-357 | for every cookie jar and every order its cookies are sent in, a public page settles on a URL a reload keeps, whose language is the rendered one if and only if a condition on the first request's cookies holds; and when exactly one redirect is enough |
| LocaleSettling.PrefixedRendersIff | apps/web/src/middleware.ts:311-331 | a prefixed page renders in its locale if and only if the first pair that holds the marker is the locale pair, or the header would render in that locale anyway |
| LocaleSettling.OpenPrefixed | apps/web/src/middleware.ts:311-331 | a non-default prefix is served at its own URL, without a redirect, from any jar |
| LocaleSettling.StampedDefaultStays | apps/web/src/middleware.ts:301-310 | after the default-locale redirect the default value is sent; it is the one read and rendered unless another brand domain above holds another, and the first one if cookies are sent by scope |
| LocaleSettling.OpenUnprefixed | apps/web/src/middleware.ts:333-357 | a bare page moves to the cookie's supported non-default locale, and stays otherwise |
| LocaleSettling.OpenAsset | apps/web/src/middleware.ts:342-357 | an asset opens at its own URL from any jar |
| LocaleSettling.StampedLocaleIsSent | apps/web/src/middleware.ts:242-255 | after a locale write the host's own NEXT_LOCALE cookie is the written one, and all that are sent are if and only if no other brand domain above holds another |
| LocaleSettling.CookieDomainCovers | apps/web/src/middleware.ts:217-225 | the dot-domain of a host's locale cookie is the first brand domain at or above the host itself, `www.` included |
| CookieHeader.InjectionIsCorrectIff | apps/web/src/middleware.ts:314-319 | for every locale, parsing the edited header gives every pair unchanged and in order but the locale pair, if and only if the first pair holding the marker is the locale pair |
| CookieHeader.MisplacedEditKeepsLocale | apps/web/src/middleware.ts:316-317 | when the edit hits another cookie, the page renders as if the header had not been edited |
| CookieHeader.InjectedLocaleRenders | apps/web/src/i18n/request.ts:26-33 | the forwarded request renders in the injected locale |
| CookieHeader.NormalizeLocaleIff | apps/web/src/i18n/config.ts:65-76 | when exactly a value gives a language: it is a tag of that language in any case, with or without a region, or no tag of a supported one and the language is the default |
| CookieText.JoinReplaces | apps/web/src/middleware.ts:316-317 | the textual replacement touches exactly the first pair that contains the marker |
| CookieText.ParseJoin | apps/web/src/i18n/request.ts:27-30 | splitting and trimming reads back the pairs that were sent |
| Instream.Socket.SendInstream | deploy/scanner/server.js:47-58 | the greeting, the length-prefixed chunks and the zero length, appended to what was written |
| Instream.InstreamRoundTrip | deploy/scanner/server.js:47-58 | clamd's decoder reads back exactly the bytes sent and stops at the end of the stream |
| Instream.FramesArePrefixFree | deploy/scanner/server.js:51-58 | no proper prefix of the frames is a whole stream: the zero length occurs once, last |
| Instream.HeaderRoundTrip | deploy/scanner/server.js:53-54 | the big-endian length header reads back, for every 32-bit length |
| Instream.FramesLength | deploy/scanner/server.js:51-58 | what is sent after the greeting is the bytes, four more for every started 64 KiB, and four for the end |
| BodyReader.Reader.OnData | deploy/scanner/server.js:96-107 | count, overflow once, then drain: the state is the specified step |
| BodyReader.Reader.OnEnd | deploy/scanner/server.js:108 | settles with the stored bytes unless settled |
| BodyReader.RunBounded | deploy/scanner/server.js:92-111 | over every event order stored bytes stay within the limit and the counter is their size until overflow |
| BodyReader.RunVerdict | deploy/scanner/server.js:92-111 | the outcome is decided by the first of overflow, end and error |
| BodyReader.BodyAcceptedIff | deploy/scanner/server.js:96-108 | however it is chunked, a body is accepted whole exactly when its size is within the limit |
| ScanPromise.Exchange.OnData | deploy/scanner/server.js:60-66 | text accumulates; the first NUL settles a pending promise with what the text reads as |
| ScanPromise.Exchange.OnClose | deploy/scanner/server.js:67-70 | a close settles a pending promise with what the text reads as if it says something, and rejects it otherwise |
| ScanPromise.VerdictIff | deploy/scanner/server.js:64 | for every text, the verdict is the one text that is left when every NUL is taken out and the white space at both ends trimmed |
| ScanPromise.Exchange.Fail | deploy/scanner/server.js:40-45 | a timeout or error rejects unless settled, and destroys the socket |
| ScanPromise.SettledStays | deploy/scanner/server.js:37-71 | the promise settles at most once, whatever events follow |
| ScanPromise.SettledBy | deploy/scanner/server.js:43-70 | which outcome a run has, read off the settling event and the text before it |
| ScanPromise.EveryRunDecomposes | deploy/scanner/server.js:60-70 | every run is pending or has such a settling event |
| ScanPromise.FragmentationIsInvisible | deploy/scanner/server.js:60-66 | a reply ending in its one NUL gives the same verdict however it is fragmented |
| ScannerGateway.SignatureIff | deploy/scanner/server.js:142 | the pattern's group is the one non-empty last word before the suffix |
| ScannerGateway.CleanIff | deploy/scanner/server.js:135-141 | over every order of body and clamd events, CLEAN is answered exactly for an authorised scan call whose body was accepted and whose settling reply or close leaves a text that reads "stream: OK" |
| ScannerGateway.BlockedIff | deploy/scanner/server.js:142-146 | BLOCKED with a name is answered exactly when that text reads as a verdict in which the name is the word before FOUND |
| ScannerGateway.StatusIff | deploy/scanner/server.js:128-152 | each error status, 404, 401, 413 and 502, and no answer yet, if and only if |
| ScannerGateway.FoundThenClosed | deploy/scanner/server.js:67-70 | a report of any signature name blocks the file also when clamd closes without a final NUL |
| ScannerGateway.FailsClosed | deploy/scanner/server.js:149-152 | a timeout or error before settlement never gives a 200 |
| ScannerGateway.DaemonSeesTheBody | deploy/scanner/server.js:135-137 | what clamd decodes is the concatenation of the HTTP body chunks, and accepted bodies fit the limit |
| AuthSessions.Token.Jwt | apps/web/src/auth.ts:206-227 | the token's fields after the callback, for sign-in and for later requests |
| AuthSessions.Session.Fill | apps/web/src/auth.ts:228-243 | the session shows exactly what the token carries |
| AuthSessions.RunConsistent | apps/web/src/auth.ts:194-227 | every reachable token carries user and session together or neither, and the session is that user's; sessions only age |
| AuthSessions.ExposedIffActive | apps/web/src/auth.ts:214-226 | a request shows a user exactly when the token's session is that user's and alive then |
| AuthSessions.DeadIsNeverExposed | apps/web/src/auth.ts:218-224 | once revoked or expired a session is never shown again, in any browser, after any events |
| AuthSessions.StepRevokesIff | apps/web/src/server/security/sessions.ts:19-36 | an event revokes a session if and only if its owner names it, revokes all but another, signs in anew on its device, or a browser that holds its token signs out; owner, device and expiry never change |
| AuthSessions.RevokedIff | apps/web/src/server/security/sessions.ts:87-146 | over every run a session is revoked if and only if some event on the way kills it |
| AuthSessions.KilledIsNeverExposed | apps/web/src/server/security/sessions.ts:87-146 | a killed session is shown in no browser after any later events |
| AuthSessions.ShownUntilKilled | apps/web/src/auth.ts:214-226 | a browser that keeps its token shows the same identity at every request until its session is killed or expires, and nobody from then on |
| AuthSessions.SignInLastsUntilKilled | apps/web/src/auth.ts:206-226 | from a sign-in on: exactly the signed-in identity, exactly that long |
| AuthSessions.DeadTokenIsCleared | apps/web/src/auth.ts:219-224 | a request clears the identity of a token whose session is dead |
| AuthSessions.RevokedTokenIsCleared | apps/web/src/auth.ts:219-224 | so the browser that holds the token of a session an event kills is anonymous after its next request |
| AuthSessions.AnonymousStays | apps/web/src/auth.ts:206-227 | and does not regain it without a new sign-in |
| AuthSessions.SignInIsSeen | apps/web/src/auth.ts:194-213 | a sign-in shows exactly that user, role and session at the next request |
| AuthSessions.ForeignSessionIsRefused | apps/web/src/server/security/sessions.ts:68-77 | in any world a token that names another user's session is refused and cleared |
| AuthSessions.CopyShowsTheSame | apps/web/src/auth.ts:214-226 | a copied token is shown what the original is, until either browser gets another |
| AuthSessions.SignOutKills | apps/web/src/auth.ts:246-258 | signing out clears the browser's token, and no browser shows the session in any later request, whoever holds a copy |
| ReplyQuote.EscapeIsOnePass | apps/crm/src/components/MailboxPage.tsx:358 | the three passes equal one pass over the characters |
| ReplyQuote.EscapedHasNoBrackets | apps/crm/src/components/MailboxPage.tsx:358-361 | escaped text holds no angle bracket and is empty only for empty text |
| ReplyQuote.SplitIff | apps/crm/src/components/MailboxPage.tsx:359-360 | a body is split into exactly the lines without a newline that join to it |
| ReplyQuote.QuoteIsInvertible | apps/crm/src/components/MailboxPage.tsx:359-362 | a parser of the generated paragraphs recovers exactly those lines, for every body |
| FieldKeys.FieldKeyIsIdentifier | apps/crm/src/components/AdminConsole.tsx:1662-1667 | every key is a letter followed by letters and digits |
| FieldKeys.FieldKeySpellsLabel | apps/crm/src/components/AdminConsole.tsx:1662-1667 | read without case, a key spells the label's letters and digits in order, with at most a leading "f" |
| FieldKeys.FieldKeyIsCamel | apps/crm/src/components/AdminConsole.tsx:1662-1667 | splitting into words and joining them is one pass over the label that puts in upper case what follows other characters |
| FieldKeys.UniqueFieldKeys | apps/crm/src/components/AdminConsole.tsx:1669-1679 | terminates; the k-th row with a base gets the base, or base_k from the second on |
| FieldKeys.UnusedKey | apps/crm/src/components/AdminConsole.tsx:1673-1675 | the suffix search finds that key |
| FieldKeys.KeysAreDistinct | apps/crm/src/components/AdminConsole.tsx:1669-1679 | no two rows get the same key |
| FieldKeys.KeysAreFieldKeys | apps/crm/src/components/AdminConsole.tsx:1662-1679 | every key given is a lower-case letter followed by letters, digits and underscores |
| FieldKeys.KeysAreStable | apps/crm/src/components/AdminConsole.tsx:1669-1679 | appending rows changes no key already given |
| ActivityStrips.Strip.OnPage | apps/crm/src/components/RecordActivities.tsx:387-392 | a page is merged into the appended part, a failed request changes nothing |
| ActivityStrips.Strip.NextPage | apps/crm/src/components/RecordActivities.tsx:384 | the page asked for next is the number of full pages shown, plus one |
| ActivityStrips.Strip.OnRefresh | apps/crm/src/components/RecordActivities.tsx:86-92 | a re-render replaces page one and keeps what was appended |
| ActivityStrips.MergedIff | apps/crm/src/components/RecordActivities.tsx:89-92 | merging appends exactly the items whose ids the list does not have, in order |
| ActivityStrips.Strip.OffersMore | apps/crm/src/components/RecordActivities.tsx:143-144 | the button is offered exactly while the total is unknown or not all is shown |
| ActivityStrips.NeverTwice | apps/crm/src/components/RecordActivities.tsx:89-92 | whatever duplicate-free pages and refreshes arrive, no id is visible twice |
| ActivityStrips.ShownIsPrefix | apps/crm/src/components/RecordActivities.tsx:381-392 | after k loads from an unchanging server the first k + 1 pages are shown, in server order |
| ActivityStrips.StopsExactly | apps/crm/src/components/RecordActivities.tsx:143-150 | everything is shown exactly from load max(0, ceil(N/8) - 1) on |
| ActivityStrips.RefreshKeepsIff | apps/crm/src/components/RecordActivities.tsx:86-92 | a refresh of page one loses no visible item that is still on the server if and only if every item it pushes off is gone or appended |
| ActivityStrips.TasksArePrefix | apps/crm/src/components/RecordActivities.tsx:364-375 | the tasks strip shows as many pages as it has asked for |
| RecencyLists.RecentRecords.Remember | apps/crm/src/components/RecentRecords.tsx:25-27 | the visited record first, its older entry dropped, six kept |
| RecencyLists.TabBar.OpenTab | apps/crm/src/components/RecordWorkspaceTabs.tsx:100-106 | whatever storage holds, tabs and storage agree afterwards: the opened tab, and then the first eleven readable others in order |
| RecencyLists.TabBar.RemoveTab | apps/crm/src/components/RecordWorkspaceTabs.tsx:118-121 | the tab is gone from tabs and storage, all others stay in order |
| RecencyLists.TabBar.ClearTabs | apps/crm/src/components/RecordWorkspaceTabs.tsx:127-130 | nothing is left in tabs and storage |
| RecencyLists.StepMeans | apps/crm/src/components/RecordWorkspaceTabs.tsx:100-130 | what opening, closing and clearing leave, without the step function |
| RecencyLists.CappedIsPrefix | apps/crm/src/components/RecentRecords.tsx:25-27 | after any visits the capped list is the uncapped one cut off |
| RecencyLists.SmallerCapIsPrefix | apps/crm/src/components/RecordWorkspaceTabs.tsx:103 | after the same visits a smaller cap keeps a prefix of what a larger one keeps |
| RecencyLists.RecentMembers | apps/crm/src/components/RecentRecords.tsx:26 | exactly the last visits are remembered |
| RecencyLists.RecentIsOrdered | apps/crm/src/components/RecentRecords.tsx:26 | newest last visit first |
| RecencyLists.TabRunKeeps | apps/crm/src/components/RecordWorkspaceTabs.tsx:100-130 | over opens, closes and clears tabs stay distinct and at most twelve |
| RecencyLists.ClosedStaysClosed | apps/crm/src/components/RecordWorkspaceTabs.tsx:118-130 | after a close, or a clear, a tab stays away until it is opened again |
| RecencyLists.OpenedStaysOpen | apps/crm/src/components/RecordWorkspaceTabs.tsx:100-130 | an opened tab is shown until it is closed, all are cleared, or twelve others are opened |
| PieReport.PieConserves | apps/crm/src/components/ReportsPage.tsx:160-176 | the pie's rows sum to the total, and no folded row is larger than a visible one |
| PieReport.PieRowsAre | apps/crm/src/components/ReportsPage.tsx:162-175 | the rows sorted stably, largest first; of more than seven the first seven and one row for the total of the rest |
| PieReport.PieGradient | apps/crm/src/components/ReportsPage.tsx:177-189 | arcs start at 0, follow without gap, are as wide as their share and end at 360 when the total is positive |
| RoleSync.Database.SeedRoles | apps/crm/prisma/seed.ts:37-76 | rows and success are those of the specified sync; every defined role exists |
| RoleSync.Database.GrantNewPermissions | apps/crm/scripts/grant-new-permissions.ts:15-33 | rows are those of the specified grant, and the count is the number of rows created |
| RoleSync.CreateMissingSpec | apps/crm/prisma/seed.ts:58-63 | the create loop succeeds exactly if no missing permission is listed twice, and adds exactly the grants |
| RoleSync.CreateMissingStops | apps/crm/prisma/seed.ts:58-63 | a loop that fails has added exactly the grants before the first one that is there already |
| RoleSync.SyncSpec | apps/crm/prisma/seed.ts:30-36 | the seed succeeds exactly under that condition, and then every row is as its mode promises |
| RoleSync.SyncStops | apps/crm/prisma/seed.ts:37-76 | a seed that fails has synced exactly the definitions before the failing one |
| RoleSync.SyncTwice | apps/crm/prisma/seed.ts:30-36 | both modes are idempotent, and additive then exact is exact |
| RoleSync.AdditiveKeeps | apps/crm/prisma/seed.ts:33-35 | the additive mode removes nothing |
| RoleSync.GrantIsAdditive | apps/crm/scripts/grant-new-permissions.ts:16-33 | the grant script equals the additive seed on the roles that exist, all of them if all exist |
| RoleSync.AdminSyncsIff | apps/crm/src/server/permissions.ts:128 | the ADMIN definition syncs exactly on databases that already hold its repeated permission |
| RoleSync.AdminDefinitionIs | apps/crm/src/server/permissions.ts:128 | the definition: the console permission, then the catalogue in order without the management of roles |
| ImportMapping.CandidateIff | apps/crm/src/components/ImportWizard.tsx:236-239 | a column wants the first field that the letters of its name spell if there is one, else the first that stands in them, else none |
| ImportMapping.AutoMap | apps/crm/src/components/ImportWizard.tsx:235-241 | each field goes to the first column that wants it, and nothing else is mapped |
| ImportMapping.MappingIsInjective | apps/crm/src/components/ImportWizard.tsx:240 | no field is given to two columns |
| ImportMapping.UnmappedIff | apps/crm/src/components/ImportWizard.tsx:236-241 | a column is unmapped exactly if it wants nothing or an earlier column got what it wants |
| ImportMapping.MissingIff | apps/crm/src/components/ImportWizard.tsx:421-423 | a required field is reported missing exactly when no column wants it |
| DayGroups.GroupTimeline | apps/crm/src/components/Timeline.tsx:88-95 | the loop computes the adjacent-run grouping |
| DayGroups.GroupNotifications | apps/crm/src/components/NotificationCenter.tsx:91-97 | the reduce computes the first-occurrence grouping |
| DayGroups.AdjacentFlattens | apps/crm/src/components/Timeline.tsx:88-95 | the timeline's groups always flatten to their input |
| DayGroups.AdjacentIff | apps/crm/src/components/Timeline.tsx:88-95 | the timeline's groups are the only ones that flatten to the rows, hold one day each and differ from their neighbours |
| DayGroups.ByFirstMeans | apps/crm/src/components/NotificationCenter.tsx:91-97 | the notification center has one group for every day, in order of first occurrence, with all rows of the day in order |
| DayGroups.GroupingsAgreeIff | apps/crm/src/components/NotificationCenter.tsx:91-97 | the two groupings coincide, and the second flattens to its input, exactly when each day's rows are consecutive |
| TableState.Table.ToggleAllOnPage | apps/crm/src/components/RecordListPage.tsx:709-720 | the header checkbox changes only ids on the page: off if all were on, else on |
| TableState.Table.ToggleColumn | apps/crm/src/components/RecordListPage.tsx:940-957 | a hidden column is shown again, a visible one is hidden unless it is the last |
| TableState.Table.Restore | apps/crm/src/components/RecordListPage.tsx:571-577 | a snapshot's known columns are hidden unless they are as many as there are columns |
| TableState.ToggleFlips | apps/crm/src/components/RecordListPage.tsx:940-957 | what the user sees: exactly the toggled column changes, and the last visible one does not |
| TableState.AColumnStaysVisible | apps/crm/src/components/RecordListPage.tsx:571-577 | after any toggles and restored snapshots at least one column is visible |
| FailingInputs.LoopbackLikeHostIsNamed | apps/web/src/platform/registry.ts:180-187 | on every site a request whose host extends 127.0.0.1 is redirected to that host |
| FailingInputs.LoopbackLikeHostIsOutside | apps/web/src/middleware.ts:90-93 | that host is outside the one-brand deployment |
| FailingInputs.SlashedHeaderLeaves | apps/web/src/middleware.ts:94-103 | a trusted header such as `other.example/.gbfxs.com` sends the visitor to other.example |
| FailingInputs.SlashedBrandLeaves | apps/web/src/middleware.ts:169-178 | a development name such as `other.example/.localhost` bounces the visitor to other.example on the development port |
| FailingInputs.DoubledSlashLeaves | apps/web/src/middleware.ts:306 | a path with two slashes after the default locale is redirected to the host it spells |
| FailingInputs.BlankLabelStrands | apps/web/src/middleware.ts:158 | a site with a blank trade label sends its visitors out and not back |
| FailingInputs.SelfRoutedLoops | apps/web/src/middleware.ts:190-195 | a site routed to its own apex loops on its sign-in page |
| FailingInputs.CrossedBrandsLoop | apps/web/src/middleware.ts:190-195 | two brands routed to each other's apex never serve their sign-in pages, though neither is routed to itself |
| FailingInputs.BarePageInAnotherLanguage | apps/web/src/middleware.ts:265 | without cookies the canonical page renders in French for a French browser |
| FailingInputs.NestedBrandMovesOn | apps/web/src/middleware.ts:301-310 | with a brand below another the English URL takes two redirects and ends on the French page |
| FailingInputs.AnotherCookieIsEdited | apps/web/src/middleware.ts:316-317 | a cookie whose name ends in NEXT_LOCALE is edited in place of the locale cookie |
| FailingInputs.GermanPageInFrench | apps/web/src/middleware.ts:311-319 | with such a cookie the German page renders in French for a French browser |
| FailingInputs.AdminFailsOnEmptyTable | apps/crm/src/server/permissions.ts:128 | the ADMIN definition does not sync into an empty table |
| FailingInputs.ReturningDay | apps/crm/src/components/NotificationCenter.tsx:91-97 | days a, b, a are grouped differently by the two components |
| FailingInputs.ShiftLosesAnItem | apps/crm/src/components/RecordActivities.tsx:86-92 | an item inserted at the top of a 16-item list that is all shown pushes one item out of view, and loading more brings nothing |

## Where the specification functions come from

- `Registry`: `apps/web/src/platform/registry.ts:66-76` and `:159-187`. `WebMiddleware`: `apps/web/src/middleware.ts:17-138`
  (constants, hosts), `:154-215` (`RouteByFamily`, `DomainRedirect`, `DomainBounce`), `:269-280` (prefixes),
  `:271-394` (`AuthHandler`, `Gate`, `Sticky`). `TradeMiddleware`: `apps/trade/src/middleware.ts:12-53`.
- `CookieText.Inject`: `apps/web/src/middleware.ts:314-319`. `CookieHeader.Rendered`: `apps/web/src/i18n/request.ts:21-46`.
- `Instream.Frames`, `BodyReader.Step`, `ScanPromise.Step`, `ScannerGateway.Handle`: `deploy/scanner/server.js:36-153`.
  `Instream.Decode` is the daemon's side of the protocol and is not in the repository.
- `AuthSessions.JwtStep`: `apps/web/src/auth.ts:206-227`; the session table: `apps/web/src/server/security/sessions.ts:11-146`.
- The CRM functions carry the names of the code they model.

## Left out

- RoutingTheorems.WebRequestsSettle: does not cover paths with two slashes in a row, which Next.js normalises before a middleware runs.
- Percent-encoding (the callback query and cookie values included), default ports and everything else the URL parser normalises, the case of redirect targets included. A host that the parser rejects, an empty one included, makes the handler fail; the model answers with what it reads.
- The scheme of redirect targets: X-Forwarded-Proto is taken to name plain `http` or `https`.
- Next.js itself: matchers, trailing-slash handling, the request id wrapper, and which of two equally named cookies its cookie API returns (both choices are covered by `Read`). The order a browser sends its cookies in is a parameter.
- Cookie expiry, cookie paths other than `/`, cookie values with blanks or semicolons, and locale cookies set for domains that are not configured brand domains.
- `brandDomainList` parsing and the domain manifests: the list, the overrides and the set of trade-enabled apexes are parameters.
- JavaScript's Unicode case mapping: `Lower` is ASCII; `FieldKeys` takes the label already in lower case, so its results hold for any case mapping.
- RoutingTheorems.EveryRequestSettles: does not cover a trade-host override that the hostname setter cuts or ignores, such as one with a port; `WithHostname` models what happens then, and the exact conditions cover it.
- RoutingBounds.TradeVisitSettlesIff: covers hosts outside development; for development hosts the condition stays that host routing comes to rest.
- The health check, log lines and error texts of the gateway; back pressure and the order in which Node delivers events (every order is covered).
- Password, MFA and throttling steps of `authorize`: a login event is a successful one. JWT signing and expiry; the filter that drops non-string admin roles.
- LocaleSettling.PublicPageSettles: covers public pages on one host; pages that need a sign-in and cross-host moves are covered by the settling theorems only.
- Storage garbage in the recent-records list and cross-window storage events of the tab bar; JSON encoding.
- PieReport.PieGradient: exact rationals; `toFixed` and colours are not modelled.
- RoleSync.Database.SeedRoles: role names, descriptions and scopes, and database errors other than the unique constraint.
- Date labels are an uninterpreted `day` string; the notification center's pages and read state.
- The table's search, filters, saved views, paging clamp and sort cycle: no properties beyond single assignments.
- The engine, ledger, reconciliation, WebSocket server, the CRM's own middleware and auth, and `apps/trade/src/auth.ts`, which repeats the file modelled.
