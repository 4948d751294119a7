# Download-token lifecycle of the watermarking PDF shop

The shop sells one PDF. When the payment provider reports a completed
checkout and the event's signature verifies, the `/webhook` handler's code
mints a download token (see "Left out" for the body parsing in front of it). It stores a grant
`{ email, orderId, expireAt, remaining }` under that token in the in-memory
map `TOKENS`. The `/download/:token` handler looks the token up and evicts it
if it is expired or used up. It then checks that the master file exists,
has the stamper watermark a copy with the buyer's e-mail, order id and the
request time, and spends one use: the grant is deleted when no use is left
and written back otherwise.

This project models that state machine.

- `grants.dfy` (module `Grants`) holds the values: grant, watermark metadata,
  event and replies. It also holds the two handler steps as functions from
  the old store to a reply and a new store: `WebhookStep` and `DownloadStep`.
  Their contracts state what each step promises.
- `server.dfy` (module `Server`) holds `TokenServer`, a class whose field
  `tokens` is the map the source updates in place. Its methods `Mint`,
  `Webhook` and `Download` do the same imperative steps as the handlers.
  Each method is proved to compute exactly the corresponding step function.
- `quota.dfy` (module `Quota`) runs sequences of requests against the store.
  It proves the quota guarantee: a token minted with `MAX_DL` uses is served
  at most `MAX_DL` times, however other requests interleave. Of k good
  downloads of a stored grant at or before its expiry, exactly
  `min(k, remaining uses)` are served. For a freshly minted token that is
  `min(k, MAX_DL)`. With `MAX_DL >= 1`, every stored grant keeps at least
  one use.

The outside world comes in as plain inputs:

- the clock is a parameter `now`, in milliseconds;
- the generated uuid is a token supplied by the caller;
- the provider's signature check is a boolean `verified`;
- the presence of the master file is a boolean `contentPresent`;
- the stamper is an oracle that either succeeds or fails (`stampOk`).

Three details of the handlers shape the contracts:

- Expiry is the strict comparison `expireAt < now`. A grant is therefore
  still served at the instant `now == expireAt` (`Quota.ExpiryInstantServed`).
- The two 403 replies carry different messages: `Invalid or expired link.`
  for an unknown token and `Link expired.` for an evicted one. The denial
  does not hide which check failed.
- A stamping failure is not caught inside the download handler. The model
  returns `StampFailed` with the metadata the stamper was given. Up to that
  throw the handler has not touched the store. What happens after the throw
  is described under "Left out".

## Model

| member | source | states |
|---|---|---|
| `Grants.BuyerEmail` | server.js:57 | The recorded e-mail is never empty. A non-empty supplied e-mail is kept. Anything other than the sentinel `unknown@user` is exactly the supplied e-mail. |
| `Grants.WebhookStep` | server.js:45-71 | A reply is `Received` exactly when the signature verified, whatever the event type. A bad signature or another event type leaves the store unchanged. A completed checkout adds exactly its token, with email `BuyerEmail(...)`, orderId = session id, `expireAt = now + TTL_HOURS*3600000` and `remaining = MAX_DL`. It overwrites any old grant under that token; every other token keeps its grant. |
| `Grants.DownloadStep` | server.js:74-99 | The store never gains a token, and tokens other than `t` are untouched. An unknown token gets 403 `Invalid or expired link.` with the store unchanged. A 403 comes exactly for an unknown, expired (`expireAt < now`) or exhausted (`remaining <= 0`) token, and the token is gone afterwards; for a known token its message is `Link expired.`. A 500 `Content missing.` comes exactly for a live grant whose content is missing. The stamper is invoked exactly for a live grant with content, with that grant's email and orderId and `ts = now`. A 500 or stamp failure leaves the store unchanged. A 200 comes exactly when all checks pass, with `application/pdf`, `Infinite_IQ.pdf` and the grant's own watermark. It consumes exactly one use and evicts the grant iff `remaining` was at most 1. A grant still stored afterwards is live at `now`. |
| `Server.TokenServer.constructor` | server.js:18 | The store starts empty. |
| `Server.TokenServer.Mint` | server.js:60-63 | Afterwards the token maps to `{email, orderId, now + TTL_HOURS*3600000, MAX_DL}`. Keys are the old keys plus the token, and every other key keeps its grant. |
| `Server.TokenServer.Webhook` | server.js:45-71 | The reply and the new store are exactly those of `WebhookStep` on the old store. |
| `Server.TokenServer.Download` | server.js:74-99 | The reply and the new store are exactly those of `DownloadStep` on the old store. A served PDF is stamped with the grant's own email and orderId. On any reply other than 200, a grant still under `t` is unmodified. |
| `Quota.StepBudget` | server.js:76-94 | A request that does not mint `t` never raises the uses left for `t`. A successful download of `t` spends one of them. |
| `Quota.QuotaBound` | server.js:76-94 | For any sequence of requests that never re-mints `t`, successful downloads of `t` are at most the uses its grant had at the start. |
| `Quota.MintedQuota` | server.js:55-94 | After a completed checkout mints `t`, any later requests that do not mint `t` again are served at most `MAX_DL` times for `t`. |
| `Quota.ExactQuota` | server.js:79-94 | Take k downloads of a stored token, each at or before its expiry, with content present and stamping succeeding. Exactly `min(k, remaining)` of them are served; none is served when `remaining <= 0`. |
| `Quota.MintedExactQuota` | server.js:55-94 | After a completed checkout mints `t`, k downloads of `t` at or before `now + TTL_HOURS*3600000`, with content present and stamping succeeding, are served exactly `min(k, MAX_DL)` times. |
| `Quota.RunKeepsAllLive` | server.js:55-94 | With `MAX_DL >= 1`, if every stored grant has a use left, the same holds after any sequence of webhooks and downloads. |
| `Quota.TwoUseScenario` | server.js:74-99 | Take a grant with two uses. The first download is served with the buyer's watermark and leaves one use. The second is served and evicts the grant. The third is denied as unknown. |
| `Quota.ExpiryInstantServed` | server.js:80 | A grant with uses left is served at `now == expireAt`. One millisecond later it is denied with `Link expired.`. |
| `Quota.TamperedWebhook` | server.js:48-53 | A webhook whose signature fails leaves the store unchanged. |

## Left out

- Grant records are values in the map. The source mutates the stored object in place (`meta.remaining -= 1`) and then re-sets or deletes the key. Each object is created per mint and stored under one key only, so writing back a decremented value is equivalent. Aliasing of grant objects is not modelled.
- `StampFailed` models the handler's own code up to the stamper's throw, with the store untouched. The handler has no try/catch around `await addWatermark(...)` (server.js:91). What the framework and the process do with the rejected promise is not modelled: the client's reply, and a possible process exit on an unhandled rejection that would empty the in-memory store.
- The `await` on the stamper lets other requests run between the validity check and the decrement. Each download is modelled as one atomic step, so interleavings that could spend a use twice are not captured.
- Checkout session creation (server.js:28-42) is a call to the payment provider. It is left out.
- Webhook signature verification is a call into the provider's library. It appears only as the boolean `verified`.
- Middleware order is not modelled. The global `express.json()` (server.js:26) is registered before the route's `express.raw(...)` (server.js:45), so a provider POST with `application/json` may reach `constructEvent` already parsed. Verification would then fail and every event would get 400 without a mint. The `verified = true` path models the handler's code as if the raw body reached the verifier; the wiring as written may never let it through.
- Token generation (`uuidv4` with dashes stripped) is random. The token is supplied by the caller, and freshness appears as the "never re-minted" precondition of the quota lemmas.
- `Date.now()` is the parameter `now`. JavaScript's floating-point time arithmetic is modelled with unbounded integers.
- `TOKEN_TTL_HOURS` and `MAX_DOWNLOADS_PER_TOKEN` are parsed with `parseInt`. They are natural-number parameters here, so the NaN behaviour of a malformed value is not modelled.
- `fs.existsSync` and `readFileSync` are file-system access. Content presence is the boolean `contentPresent`, and a read error after a successful existence check is not modelled.
- The stamper (watermark.js) loads the PDF, draws the text on every page and saves it. That work happens inside a PDF library, so it is a may-fail oracle here. The model records only the metadata the stamper receives, not the output bytes or the ISO-8601 rendering of the time.
- Static file hosting, JSON body parsing, `/healthz`, logging and `app.listen` are I/O plumbing. They are left out.
