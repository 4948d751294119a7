/**
 * The server's token store and the two request handlers that change it.
 * The store is one in-memory map from token to grant, updated in place;
 * each handler runs as one atomic step against it.
 */
module Server {
  import opened Grants

  class TokenServer {
    /** token -> grant; lost when the process ends. */
    var tokens: map<string, Grant>

    constructor ()
      ensures tokens == map[]
    {
      tokens := map[];
    }

    /** Stores a fresh grant under `token`, replacing any grant already there. */
    method Mint(token: string, email: string, orderId: string, now: int, ttlHours: nat, maxDl: nat)
      modifies this
      ensures token in tokens && tokens.Keys == old(tokens).Keys + {token}
      ensures tokens[token] == Grant(email, orderId, now + ttlHours * MsPerHour, maxDl)
      ensures forall k :: k in old(tokens) && k != token ==> tokens[k] == old(tokens)[k]
    {
      var expireAt := now + ttlHours * MsPerHour;
      tokens := tokens[token := Grant(email, orderId, expireAt, maxDl)];
    }

    /**
     * The webhook: `verified` is the outcome of the provider's signature check
     * and `token` the fresh identifier a completed purchase is stored under.
     */
    method Webhook(verified: bool, ev: Event, token: string, now: int, ttlHours: nat, maxDl: nat)
      returns (reply: WebhookReply)
      modifies this
      ensures WebhookOutcome(reply, tokens) == WebhookStep(old(tokens), verified, ev, token, now, ttlHours, maxDl)
    {
      if !verified {
        return BadRequest;
      }
      if ev.kind == CompletedEvent {
        var email := BuyerEmail(ev.email);
        var orderId := ev.sessionId;
        Mint(token, email, orderId, now, ttlHours, maxDl);
      }
      return Received;
    }

    /**
     * The download of token `t` at time `now`: lookup, lazy eviction of a stale
     * grant, the master-file check, stamping, then consumption of one use.
     */
    method Download(t: string, now: int, contentPresent: bool, stampOk: bool) returns (reply: Reply)
      modifies this
      ensures DownloadOutcome(reply, tokens) == DownloadStep(old(tokens), t, now, contentPresent, stampOk)
      ensures reply.Pdf? ==> reply.mark.email == old(tokens)[t].email && reply.mark.orderId == old(tokens)[t].orderId
      ensures !reply.Pdf? && t in tokens ==> tokens[t] == old(tokens)[t]
    {
      if t !in tokens {
        return Forbidden(InvalidLink);
      }
      var meta := tokens[t];
      if meta.expireAt < now || meta.remaining <= 0 {
        tokens := tokens - {t};
        return Forbidden(LinkExpired);
      }
      if !contentPresent {
        return ServerError(ContentMissing);
      }
      var mark := Watermark(meta.email, meta.orderId, now);
      if !stampOk {
        return StampFailed(mark);
      }
      meta := meta.(remaining := meta.remaining - 1);
      if meta.remaining <= 0 {
        tokens := tokens - {t};
      } else {
        tokens := tokens[t := meta];
      }
      return Pdf(PdfType, PdfName, mark);
    }
  }
}
