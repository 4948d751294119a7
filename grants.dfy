/**
 * The values of the download shop's token store: the access grant kept per
 * token, the purchase event that mints one, the replies of the two handlers
 * that touch the store, and the two handler steps as functions from the old
 * store to a reply and the new store. The imperative handlers in module
 * Server are proved to compute exactly these steps.
 */
module Grants {

  datatype Option<T> = None | Some(value: T)

  /** What the store keeps under a token. Times are milliseconds since the epoch. */
  datatype Grant = Grant(email: string, orderId: string, expireAt: int, remaining: int)

  /** The purchase metadata handed to the stamper. */
  datatype Watermark = Watermark(email: string, orderId: string, ts: int)

  /**
   * A signed event from the payment provider, after its signature was checked:
   * its type, the customer e-mail if the provider supplied one, and the
   * checkout session id.
   */
  datatype Event = Event(kind: string, email: Option<string>, sessionId: string)

  /** Reply of the webhook: 400, or the acknowledgement `{received: true}`. */
  datatype WebhookReply = BadRequest | Received

  /**
   * Reply of the download handler: 403 with a message, 500 with a message,
   * a stamper failure that escapes the handler, or the stamped PDF with its
   * headers and the metadata the stamper was given.
   */
  datatype Reply =
    | Forbidden(message: string)
    | ServerError(message: string)
    | StampFailed(attempted: Watermark)
    | Pdf(contentType: string, filename: string, mark: Watermark)

  datatype WebhookOutcome = WebhookOutcome(reply: WebhookReply, tokens: map<string, Grant>)
  datatype DownloadOutcome = DownloadOutcome(reply: Reply, tokens: map<string, Grant>)

  const CompletedEvent := "checkout.session.completed"
  const UnknownEmail := "unknown@user"
  const MsPerHour := 3600 * 1000
  const InvalidLink := "Invalid or expired link."
  const LinkExpired := "Link expired."
  const ContentMissing := "Content missing."
  const PdfType := "application/pdf"
  const PdfName := "Infinite_IQ.pdf"

  /**
   * The e-mail recorded for a purchase. The source falls back to the sentinel
   * on any falsy value, so an empty e-mail is replaced as well as a missing one.
   */
  function BuyerEmail(supplied: Option<string>): (e: string)
    ensures e != ""
    ensures supplied.Some? && supplied.value != "" ==> e == supplied.value
    ensures e != UnknownEmail ==> supplied == Some(e)
  {
    match supplied
    case Some(s) => if s != "" then s else UnknownEmail
    case None => UnknownEmail
  }

  /** The check that makes the download handler evict a grant. */
  predicate Stale(g: Grant, now: int)
  {
    g.expireAt < now || g.remaining <= 0
  }

  /** The grant a completed purchase stores. */
  function Minted(email: string, orderId: string, now: int, ttlHours: nat, maxDl: nat): Grant
  {
    Grant(email, orderId, now + ttlHours * MsPerHour, maxDl)
  }

  /**
   * The webhook once the provider's signature check has produced `verified`;
   * `token` is the fresh identifier the handler would generate.
   */
  function WebhookStep(tokens: map<string, Grant>, verified: bool, ev: Event, token: string,
                       now: int, ttlHours: nat, maxDl: nat): (r: WebhookOutcome)
    // every verified event is acknowledged, whatever its type
    ensures r.reply == Received <==> verified
    // nothing is minted for a bad signature or another event type
    ensures !verified || ev.kind != CompletedEvent ==> r.tokens == tokens
    // a completed purchase stores exactly one grant, overwriting any old one under that token
    ensures verified && ev.kind == CompletedEvent ==>
      && r.tokens.Keys == tokens.Keys + {token}
      && r.tokens[token].email == BuyerEmail(ev.email)
      && r.tokens[token].orderId == ev.sessionId
      && r.tokens[token].expireAt - now == ttlHours * MsPerHour
      && r.tokens[token].remaining == maxDl
      && (forall k :: k in tokens && k != token ==> r.tokens[k] == tokens[k])
  {
    if !verified then
      WebhookOutcome(BadRequest, tokens)
    else if ev.kind == CompletedEvent then
      WebhookOutcome(Received, tokens[token := Minted(BuyerEmail(ev.email), ev.sessionId, now, ttlHours, maxDl)])
    else
      WebhookOutcome(Received, tokens)
  }

  /**
   * The download of token `t` at time `now`; `contentPresent` says whether
   * the master file exists and `stampOk` whether the stamper succeeds.
   */
  function DownloadStep(tokens: map<string, Grant>, t: string, now: int,
                        contentPresent: bool, stampOk: bool): (r: DownloadOutcome)
    // the store never gains a token, and no other token is touched
    ensures r.tokens.Keys <= tokens.Keys
    ensures forall k :: k in tokens && k != t ==> k in r.tokens && r.tokens[k] == tokens[k]
    // an unknown token is denied and the store is unchanged
    ensures t !in tokens ==> r == DownloadOutcome(Forbidden(InvalidLink), tokens)
    // denial happens exactly for unknown, expired or exhausted tokens, and evicts the token
    ensures r.reply.Forbidden? <==> t !in tokens || Stale(tokens[t], now)
    ensures r.reply.Forbidden? ==> t !in r.tokens
    ensures r.reply.Forbidden? && t in tokens ==> r.reply.message == LinkExpired
    // a missing master file is a server error for a live grant, which stays as it was
    ensures r.reply.ServerError? <==> t in tokens && !Stale(tokens[t], now) && !contentPresent
    ensures r.reply.ServerError? ==> r.reply.message == ContentMissing
    // the stamper is asked only for a live grant with content present, and with that grant's identity
    ensures r.reply.StampFailed? || r.reply.Pdf? <==> t in tokens && !Stale(tokens[t], now) && contentPresent
    ensures r.reply.StampFailed? ==> r.reply.attempted == Watermark(tokens[t].email, tokens[t].orderId, now)
    // server-side failures never consume the quota
    ensures r.reply.ServerError? || r.reply.StampFailed? ==> r.tokens == tokens
    // a success carries the fixed headers and the grant's own identity
    ensures r.reply.Pdf? <==> t in tokens && !Stale(tokens[t], now) && contentPresent && stampOk
    ensures r.reply.Pdf? ==> r.reply == Pdf(PdfType, PdfName, Watermark(tokens[t].email, tokens[t].orderId, now))
    // a success consumes exactly one use, evicting the grant when none is left
    ensures r.reply.Pdf? ==> (t in r.tokens <==> tokens[t].remaining > 1)
    ensures r.reply.Pdf? && t in r.tokens ==>
      r.tokens[t] == tokens[t].(remaining := tokens[t].remaining - 1)
    // lazy expiry: a grant still stored under t afterwards is live at `now`
    ensures t in r.tokens ==> !Stale(r.tokens[t], now)
  {
    if t !in tokens then
      DownloadOutcome(Forbidden(InvalidLink), tokens)
    else
      var meta := tokens[t];
      if Stale(meta, now) then
        DownloadOutcome(Forbidden(LinkExpired), tokens - {t})
      else if !contentPresent then
        DownloadOutcome(ServerError(ContentMissing), tokens)
      else
        var mark := Watermark(meta.email, meta.orderId, now);
        if !stampOk then
          DownloadOutcome(StampFailed(mark), tokens)
        else
          var used := meta.(remaining := meta.remaining - 1);
          var after := if used.remaining <= 0 then tokens - {t} else tokens[t := used];
          DownloadOutcome(Pdf(PdfType, PdfName, mark), after)
  }
}
