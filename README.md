# webui-url-login, modelled in Dafny

The koishi plugin `webui-url-login` lets a user who is already known in a chat open the
koishi web console without a password. In a chat, the `webui-url-login <redirectTo:text>` command
issues a one-time code. The code is stored in the in-memory map `pendingList` together with
the user and the issue time, and the command replies with a warning line followed by the link
`<base>?otp=<code>[&redirect=<encodeURIComponent(path)>]`.
The console page then sends the code to the `webui-url-login/login` listener. The listener
consumes the code, refuses it once it is older than `config.timeout`, and otherwise has
`ctx.auth.createToken` log the console client in as that user. A second listener,
`webui-url-login/getBinding`, returns the first platform binding of an account.

Files:

- `pending_store.dfy` (module `PendingLogins`): the class `Store`. Its field `pending` is
  `pendingList`. Its methods are the login listener (`Login`) and the command (`Command`).
  `Redeem` is the listener as a function of the map, and the lemmas about single use,
  strict expiry and overwriting are stated about it.
- `base36.dfy` (module `Base36`): `Number.prototype.toString(36)` and its inverse. The code
  is the rendering of an integer below 62^6.
- `uri_component.dfy` (module `UriComponent`): `encodeURIComponent` as UTF-8
  percent-encoding (ECMA-262, section 19.2.6.5; RFC 3986, section 2.1). Its inverse is
  `decodeURIComponent`.
- `login_url.dfy` (module `LoginUrl`): the base address `selfUrl ?? server config selfUrl ??
  server selfUrl`, `trimSlash`, the redirect target, and the reply text. It also reads the
  query parameters back out of a link.
- `binding.dfy` (module `BindingLookup`): the `getBinding` listener over the rows of the
  `binding` table.
- `wrappers.dfy`: `Option`, which stands for `undefined`.

Inputs the code takes from outside become parameters: `Date.now()` is `now`, the integer
`Math.floor(Math.random() * 62 ** 6)` is `n`, the console client is `client`, and the
database's rows are `table`. Whether the awaited `ctx.auth.createToken` call resolves or
rejects is the parameter `mintOk`. Each call that resolves appends `Token(client, user)` to
`Store.minted`.

Points where the code's behaviour is easy to misread:

- The base address is chosen with `??`, so the first source that is defined wins, even when
  it is the empty string. The `selfUrl` option is described (src/index.ts:24) as "leave
  empty to use the global selfUrl", but an explicit `""` is still taken at line 63. The
  lemma `EmptySelfUrlExample` shows the consequence: a link with no host.
- Issuing a code overwrites an entry already stored under the same code. No collision check
  is made and nothing is retried. `IssueThenRedeem` states this.
- Expiry is strict (`>`). An entry exactly `timeout` milliseconds old can still be redeemed.
- The token call is awaited before the entry is deleted (src/index.ts:42-43). If it rejects,
  the listener throws and the code stays redeemable until it expires. `FailedMintKeepsCode`
  states this.

## Model

| member | source | states |
|---|---|---|
| `PendingLogins.Redeem` | src/index.ts:33-47 | the listener answers true exactly when the code is pending, not older than `timeout` (strict `>`), and the token call resolves; it throws exactly when the code is pending and fresh but the token call rejects; on a throw the map is unchanged, otherwise the code and nothing else leaves the map; a token is made only on success, and only for the stored user |
| `PendingLogins.RedeemOnce` | src/index.ts:39-46 | after one redemption of a code that did not throw, a second one at any time answers false, changes nothing and makes no token |
| `PendingLogins.FailedMintKeepsCode` | src/index.ts:42-43 | when the token call rejects, the listener throws, the map is unchanged and no token is made; the same code then still redeems successfully while it is fresh |
| `PendingLogins.ExpiryBoundary` | src/index.ts:37-44 | an entry is redeemed at exactly `timeout` ms after issue; one ms later it is refused and dropped, with no token |
| `PendingLogins.IssueThenRedeem` | src/index.ts:59-62 | redeeming a code just issued yields the user it was issued for, whatever was stored under that code before (overwrite, no collision check), and leaves the other entries as they were |
| `PendingLogins.Store.constructor` | src/index.ts:28 | the pending map starts empty and no token has been made |
| `PendingLogins.Store.Login` | src/index.ts:33-47 | the listener's outcome (true, false, or a throw from a rejected token call), new map and token record are those of `Redeem`; the token record grows by one token for this client and the stored user exactly on success; it keeps the invariant that only users bound by issuance are pending or get tokens |
| `PendingLogins.Store.Command` | src/index.ts:53-67 | with `isDirectOnly` outside a direct chat: the rejection text and no change; otherwise `pendingList[otp] := (user, now)` with `otp` the base-36 code of `n`, other keys unchanged, no token, and the reply is warning + base + `?otp=` + code + the optional redirect |
| `Base36.Encode` | src/index.ts:58 | `n.toString(36)` is non-empty, only `0-9a-z`, and has no leading zero except for `"0"` |
| `Base36.Decode` | src/index.ts:58 | a string of k base-36 digits denotes an integer below 36^k |
| `Base36.DecodeEncode` | src/index.ts:58 | reading a code back gives the integer it was made from |
| `Base36.EncodeDecode` | src/index.ts:58 | every canonical base-36 string is the code of the integer it denotes |
| `Base36.EncodeInjective` | src/index.ts:58 | different integers give different codes |
| `Base36.EncodeLength` | src/index.ts:58 | a code has at most k digits exactly when its integer is below 36^k |
| `Base36.CodeShape` | src/index.ts:58 | for `n < 62^6`, the code has 1 to 7 base-36 digits and decodes to `n` |
| `UriComponent.Encode` | src/index.ts:64 | `encodeURIComponent` output holds only unescaped characters and `%`, so never `&`, `=`, `?` or `#`, and is never shorter than its input |
| `UriComponent.DecodeEncode` | src/index.ts:64 | `decodeURIComponent(encodeURIComponent(s)) == s` for every string |
| `UriComponent.EncodeUnreserved` | src/index.ts:64 | a string made only of unescaped characters is left unchanged |
| `UriComponent.DecodeEscapeChar` | src/index.ts:64 | the `%XX` escapes of one character's UTF-8 bytes decode to that character, whatever follows |
| `UriComponent.EncodePathExample` | src/index.ts:64 | `/dash` encodes as `%2Fdash` |
| `LoginUrl.FirstDefined` | src/index.ts:63 | the plugin's `selfUrl` wins whenever it is defined, even if empty; otherwise the server configuration's, otherwise the server's own address (the choice `BaseUrl` makes before trimming) |
| `LoginUrl.TrimSlash` | src/index.ts:63 | the result is the address itself, or the address without its one trailing `/` (the trimming `BaseUrl` applies to the chosen address) |
| `LoginUrl.RedirectTarget` | src/index.ts:56 | there is a redirect exactly when the argument or `jumpUrl` is a non-empty string; the argument takes precedence |
| `LoginUrl.Reply` | src/index.ts:64-66 | the reply (warning line, then `base?otp=code`, then `&redirect=` and the encoded target when there is one) read as a URL gives the code as `otp`, and the encoded target as `redirect` exactly when there is a target, provided the base has no `?` and no `#` and the code no `&` and no `#` (the query of a URL ends at its first `#`) |
| `LoginUrl.ReplyParams` | src/index.ts:58-66 | for every code the command draws (`n.toString(36)`), the reply reads back to that code as `otp` and to the encoded target as `redirect` exactly when there is one, provided the base has no `?` and no `#` |
| `LoginUrl.CodeIsPlain` | src/index.ts:58 | a base-36 code never holds `&` or `#`, so it cannot end the `otp` field or the query early |
| `LoginUrl.LinkParams` | src/index.ts:64-66 | reading the query of the link that `Link` builds (with the suffix `RedirectSuffix` renders for line 64) gives the code as `otp`; it gives the encoded target as `redirect` exactly when there is a target, and that value decodes back to the target; provided the base has no `?` and no `#` and the code no `&` and no `#` |
| `LoginUrl.FragmentBase` | src/index.ts:63-66 | when the base address holds a `#` (for example `https://h/#/console`), the `?otp=` the command appends lands in the fragment and the link carries no `otp` query parameter at all |
| `LoginUrl.ServerAddressExample` | src/index.ts:63-66 | with no plugin address, the server-wide `https://example.com/`, code `abc123` and path `/dash`, the link is `https://example.com?otp=abc123&redirect=%2Fdash` |
| `LoginUrl.EmptySelfUrlExample` | src/index.ts:63 | a plugin address set to the empty string is kept, and the link becomes `?otp=abc123&redirect=%2Fdash` |
| `BindingLookup.FirstRow` | src/index.ts:50 | the index of the first row of the account, or the table length when the account has none |
| `BindingLookup.GetBinding` | src/index.ts:49-51 | `undefined` exactly when the account has no binding row; otherwise the platform and pid of its first row |
| `BindingLookup.SingleBinding` | src/index.ts:49-51 | an account with a single binding gets that binding's platform and pid back |

## Left out

- The concurrency of the listener is not modelled. `await ctx.auth.createToken` (src/index.ts:42) comes before `delete pendingList[otp]` (line 43). Two console requests with the same code that overlap there could both be logged in. The model runs the listener as one step, in source order.
- `Math.random()` and `Date.now()` are parameters (`n`, `now`). The model does not capture how `n` is distributed.
- The internals of `ctx.auth.createToken` are not modelled. Only whether it resolves (`mintOk`) and, on success, its client and user are recorded. The session it creates is not.
- The database query behind `getBinding` is not modelled. It is given as the sequence of rows in the order the query returns them.
- `trimSlash` is koishi library code and is not part of this model's sources. It is modelled as removing one trailing `/`.
- `ctx.server.selfUrl` is modelled as always defined. If all three address sources were undefined, the source would throw in `trimSlash`, and the model does not capture that.
- The `Schema` declarations, `ctx.console.addEntry`, the `declare module` augmentation, the command registration with its `userFields`, and the client entry (client/index.ts) are framework wiring with no logic to model.
- `PendingLogins.Store.Command` stores the user as a value fixed at issuance. The source stores a reference to the `session.user` object (src/index.ts:60). A change to that object between issuance and redemption would reach `createToken` in the source but not in the model.
- `pendingList` is a plain object. A code equal to an inherited property name such as `constructor` would be found on its prototype. Codes that `toString(36)` produces never have that form, but the listener accepts any string. The model treats the map as holding only what the command stored.
- `UriComponent.Encode`: JavaScript strings may hold lone surrogates, on which `encodeURIComponent` throws. Strings here hold Unicode scalar values only, so that error path is absent.
- Integer widths: timestamps and `timeout` are unbounded integers. JavaScript numbers are doubles, but millisecond times stay far inside their exact-integer range.
