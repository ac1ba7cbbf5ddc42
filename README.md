# parks-reso-admin: session decisions and FAQ submission formatting

This project models the two pieces of the parks-reso-admin front end that
hold logic of their own:

- the **Keycloak session wrapper** (`KeycloakService`). It decides whether the user is
  logged in, whether the token grants a role on the `parking-pass` client, and which
  identity provider (IDIR, BCeID, BC Services Card) issued the token. It also computes
  the address a login returns to and the client id the identity client is built with;
- the **FAQ edit component** (`FaqEditComponent`). It turns form values into the
  payload submitted for a park, and follows the key of the currently selected park
  into its `park` and `data` fields.

Files:

- `js_values.dfy` (module `JsValues`) holds the JavaScript semantics the code relies on:
  truthiness, property reads of a plain object (`Lookup`: a missing key reads as
  `undefined`), thrown errors, and the string built-ins `lastIndexOf`, `split`,
  `toLowerCase`, `startsWith`, `endsWith` and `slice`. `IndexOf` is the search step
  inside `split`. `Join` is not called by the code; it is the reference inverse that
  pins `split` down, through the round-trip lemmas `JoinSplit` and `SplitJoin`.
- `keycloak.dfy` (module `Keycloak`) holds the claims record and the pure decisions. It
  also holds the `KeycloakService` class, whose state is the optional identity client
  (its configuration, `token` and `authenticated` flag) and the three configuration fields.
- `faq_edit.dfy` (module `FaqEdit`) holds the submission payload, `FormatFormResults`,
  and the `FaqEditComponent` class with its `park` and `data` fields.

The JWT decoder (`JwtUtil.decodeToken`) is not part of this model. Every decision that
decodes the token takes the decoder as a parameter `decode: string -> Option<Claims>`.
`None` stands for a falsy decoding result. The park cache of `ParkService` is a
parameter too: a `map` from key to park, read by `CachedPark` (`getCachedPark`), which
gives `None` for a key with no cached park.

Where the documented contract of the service and its code differ, the model follows
the code:

- `isAuthorized` does not consult the `authenticated` flag; only the token and its claims
  matter (`IsAuthorized`'s contract has no mention of the flag).
- `getIdpFromToken` does not always fall back to a safe default. It throws a `TypeError`
  when the decoder yields nothing, and when neither marker claim is present and
  `preferred_username` is not a string. `IdpFromClaims` returns `Throw(TypeError)` in
  those cases.

## Model

| member | source | states |
|---|---|---|
| `JsValues.IndexOf` | src/app/services/keycloak.service.ts:220 | the result is -1 exactly when the character is absent; otherwise it is a position holding the character with none before it |
| `JsValues.LastIndexOf` | src/app/services/keycloak.service.ts:190 | the result is -1 exactly when the character is absent; otherwise it is a position holding the character with none after it |
| `JsValues.SliceTo` | src/app/services/keycloak.service.ts:190 | `slice(0, end)` always yields a prefix; for 0 <= end <= length it is the first `end` characters; a negative end counts back from the end; a large end is clamped |
| `JsValues.Split` | src/app/services/keycloak.service.ts:220 | `split` yields at least one piece; exactly one piece iff the separator is absent; no piece contains the separator |
| `JsValues.JoinSplit` | src/app/services/keycloak.service.ts:220 | joining the pieces of a split with the separator gives back the string |
| `JsValues.SplitJoin` | src/app/services/keycloak.service.ts:220 | splitting a join of separator-free pieces gives back the pieces |
| `JsValues.ToLowerCase` | src/app/services/keycloak.service.ts:222 | lower-casing keeps the length and lower-cases each position on its own |
| `Keycloak.IdpHint.Value` | src/app/services/keycloak.service.ts:19-23 | each hint is one of `idir`, `bceid-basic-and-business`, `bcsc` |
| `Keycloak.ParkingPassRoles` | src/app/services/keycloak.service.ts:134-136 | following `resource_access['parking-pass'].roles` yields nothing when the claims, `resource_access` or the `parking-pass` entry are missing, and the entry's roles otherwise |
| `Keycloak.RolesAuthorize` | src/app/services/keycloak.service.ts:132-140 | the claims authorize iff the roles chain is present and holds at least one role; an empty roles array does not authorize |
| `Keycloak.DomainPart` | src/app/services/keycloak.service.ts:220-222 | the segment between the first and the second `@` contains no `@` |
| `Keycloak.SplitSecondPiece` | src/app/services/keycloak.service.ts:220-222 | for a username with an `@`, `split('@')` has a second piece and it is the segment between the first and second `@` |
| `Keycloak.IdpFromClaims` | src/app/services/keycloak.service.ts:207-231 | priority order: a present `idir_userid` gives IDIR whatever else; else a present `bceid_userid` gives BCEID; else a string `preferred_username` gives BCEID iff it has an `@` and its lower-cased domain segment starts with `bceid`, BCSC otherwise; a null decoding or a non-string username throws |
| `Keycloak.DomainPartLowerCase` | src/app/services/keycloak.service.ts:220-224 | the domain segment of the lower-cased username is the lower-cased domain segment |
| `Keycloak.BceidIgnoresCase` | src/app/services/keycloak.service.ts:222-224 | two usernames equal up to case are classified alike: the BCeID test is case-insensitive |
| `Keycloak.DomainPartOfUsername` | src/app/services/keycloak.service.ts:220-222 | in `name@domain` with no other `@`, the domain segment is `domain` |
| `Keycloak.UsernameDomainDecides` | src/app/services/keycloak.service.ts:220-231 | without marker claims, `name@domain` gives BCEID iff lower-cased `domain` starts with `bceid`, and BCSC otherwise |
| `Keycloak.RedirectUri` | src/app/services/keycloak.service.ts:186-191 | the return address is always a prefix of the current address; equal to it unless it ends in `/login`; otherwise it is the address with that trailing `/login` removed |
| `Keycloak.ClientIdOrDefault` | src/app/services/keycloak.service.ts:45 | the client id is always truthy: the configured value when truthy, `nrpti-admin` otherwise |
| `Keycloak.KeycloakService.constructor` | src/app/services/keycloak.service.ts:25-29 | a new service has no identity client and no configuration read |
| `Keycloak.KeycloakService.Init` | src/app/services/keycloak.service.ts:31-50 | the three configuration fields are read; when enabled, a client is built with URL, realm and the defaulted client id, and it has no token, so no one is logged in; when disabled, the client is left as it was |
| `Keycloak.KeycloakService.GetToken` | src/app/services/keycloak.service.ts:149-151 | the token is `undefined` or a string; it is truthy exactly when a client holds a non-empty token |
| `Keycloak.KeycloakService.IsAuthenticated` | src/app/services/keycloak.service.ts:111-117 | logged in iff a non-empty token exists and the client's flag is exactly `true` (a truthy flag other than `true` does not count) |
| `Keycloak.KeycloakService.IsAuthorized` | src/app/services/keycloak.service.ts:125-141 | never authorized without a non-empty token; with one, authorized iff its decoded claims carry at least one `parking-pass` role; the `authenticated` flag plays no part |
| `Keycloak.KeycloakService.GetIdpFromToken` | src/app/services/keycloak.service.ts:200-232 | `''` without a token; otherwise the hint string of `IdpFromClaims` on the decoded claims, throwing when it throws; a normal result is always `''` or one of the three hints |
| `Keycloak.KeycloakService.Login` | src/app/services/keycloak.service.ts:185-193 | no login request without a client; with one, the request carries the given hint and a return address that is a prefix of the current address, with a trailing `/login` removed and otherwise unchanged |
| `FaqEdit.FormatFormResults` | src/app/faq/faq-edit/faq-edit.component.ts:85-100 | `status` is `open` iff `parkStatus` is exactly `true` and `closed` otherwise, including for other truthy values; the other eight fields are copied unchanged under their new names |
| `FaqEdit.SubmissionReadsOnlyFormFields` | src/app/faq/faq-edit/faq-edit.component.ts:86-98 | two forms that agree on the nine form fields give the same submission: no other field is read |
| `FaqEdit.FaqEditComponent.constructor` | src/app/faq/faq-edit/faq-edit.component.ts:45-66 | the subscription to the current-park key runs once on the key the stream replays: a new component has no park and no data when that key is falsy (or there is none), and otherwise both hold the cached park for it |
| `FaqEdit.FaqEditComponent.OnCurrentParkKey` | src/app/faq/faq-edit/faq-edit.component.ts:57-62 | a falsy key leaves `park` and `data` unchanged; a truthy key sets both to the same cached park for that key |

## Left out

- The promise returned by `init`, the handshake with the identity server, and the six lifecycle callbacks (keycloak.service.ts:41-101). They are wiring to the external Keycloak library, whose behaviour is not part of this model. A newly built client is taken to hold no token and an `undefined` flag.
- The writes the Keycloak library makes to the client's `token` and `authenticated` on login, refresh and logout. The session decisions are stated for every possible client state instead.
- `refreshToken` (keycloak.service.ts:160-176). It wraps an asynchronous external call in an observable and has no decision of its own.
- JWT decoding (`JwtUtil.decodeToken`). It is not part of this model and is passed in as a function.
- The browser side of `login`: reading `window.location.href` and the redirect done by `keycloakAuth.login`. The address is a parameter, and the call's argument is returned as a `LoginRequest`.
- Logger, console and toast side effects (keycloak.service.ts:77-98).
- `LAST_IDP_AUTHENTICATED` (keycloak.service.ts:13). The service never reads it.
- `setForm`, `onSubmit` and `submitParkChanges` (empty bodies, faq-edit.component.ts:68-77). Also `onFormReset`, which is base-class form plumbing; `BaseFormComponent` is not part of this model, and neither is the initial value of its `data` field, taken as empty.
- The route and module declarations (app-routing.module.ts, faq-routing.module.ts, faq.module.ts). The component test files assert nothing about behaviour.
- Claims: only `undefined` versus any other value is distinguished for the marker claims. For `resource_access`, the `parking-pass` entry and `roles`, a falsy value is modelled as absent, and a truthy value as an object or array; non-object truthy values at those places are not modelled.
- `FaqEdit.FaqEditComponent.constructor`: `DataService` is not part of this model. Its key stream is taken to replay its current value once on subscription, given as `initialKey`; later emissions are separate `OnCurrentParkKey` calls. The subscription bookkeeping and the `setForm` calls (empty bodies) are not modelled.
- `JsValues.ToLowerCase`: lower-cases ASCII letters only, not the full Unicode case mapping of `toLowerCase`.
- `JsValues.JsValue`: numbers are integers; fractional numbers and `NaN` are not modelled.
- `FaqEdit.FormatFormResults`: `results` is modelled as an object of scalar values. A `null` or `undefined` argument, which would throw, is not modelled.

