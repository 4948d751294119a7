/**
 * Sequences of requests against the store, and what they can achieve: a
 * grant minted with a quota of n uses serves at most n downloads however the
 * requests interleave, exactly min(k, n) of k good downloads succeed, and a
 * store whose grants all have a use left keeps that property.
 */
module Quota {
  import opened Grants

  /** One request as the server sees it, with the outside world already resolved. */
  datatype Request =
    | DownloadReq(token: string, now: int, contentPresent: bool, stampOk: bool)
    | WebhookReq(verified: bool, event: Event, token: string, now: int)

  /** The configured time-to-live in hours and the number of downloads per token. */
  datatype Config = Config(ttlHours: nat, maxDl: nat)

  /** The store after one request. */
  function Next(tokens: map<string, Grant>, req: Request, cfg: Config): map<string, Grant>
  {
    match req
    case DownloadReq(t, now, c, s) => DownloadStep(tokens, t, now, c, s).tokens
    case WebhookReq(v, ev, t, now) => WebhookStep(tokens, v, ev, t, now, cfg.ttlHours, cfg.maxDl).tokens
  }

  /** 1 when `req` is a download of `t` that is served, otherwise 0. */
  function Hit(tokens: map<string, Grant>, req: Request, t: string): nat
  {
    match req
    case DownloadReq(u, now, c, s) => if u == t && DownloadStep(tokens, u, now, c, s).reply.Pdf? then 1 else 0
    case WebhookReq(_, _, _, _) => 0
  }

  /** Whether `req` stores a new grant under `t`. */
  predicate Mints(req: Request, t: string)
  {
    req.WebhookReq? && req.verified && req.event.kind == CompletedEvent && req.token == t
  }

  /** The store after running `reqs` in order. */
  function Run(tokens: map<string, Grant>, reqs: seq<Request>, cfg: Config): map<string, Grant>
    decreases |reqs|
  {
    if reqs == [] then tokens else Run(Next(tokens, reqs[0], cfg), reqs[1..], cfg)
  }

  /** The number of successful downloads of `t` while running `reqs` in order. */
  function Successes(tokens: map<string, Grant>, reqs: seq<Request>, t: string, cfg: Config): nat
    decreases |reqs|
  {
    if reqs == [] then 0
    else Hit(tokens, reqs[0], t) + Successes(Next(tokens, reqs[0], cfg), reqs[1..], t, cfg)
  }

  /** The downloads the store still allows under `t`. */
  function Budget(tokens: map<string, Grant>, t: string): nat
  {
    if t in tokens && tokens[t].remaining > 0 then tokens[t].remaining else 0
  }

  function Min(a: nat, b: nat): nat
  {
    if a <= b then a else b
  }

  /** Every grant in the store has at least one use left. */
  predicate AllLive(tokens: map<string, Grant>)
  {
    forall k :: k in tokens ==> tokens[k].remaining >= 1
  }

  /** One request that does not mint `t` never raises its budget, and a success spends one unit of it. */
  lemma StepBudget(tokens: map<string, Grant>, req: Request, t: string, cfg: Config)
    requires !Mints(req, t)
    ensures Hit(tokens, req, t) + Budget(Next(tokens, req, cfg), t) <= Budget(tokens, t)
  {
  }

  /** However requests interleave, `t` is served at most as often as its budget allows. */
  lemma {:induction false} QuotaBound(tokens: map<string, Grant>, reqs: seq<Request>, t: string, cfg: Config)
    requires forall i :: 0 <= i < |reqs| ==> !Mints(reqs[i], t)
    ensures Successes(tokens, reqs, t, cfg) <= Budget(tokens, t)
    decreases |reqs|
  {
    if reqs != [] {
      StepBudget(tokens, reqs[0], t, cfg);
      QuotaBound(Next(tokens, reqs[0], cfg), reqs[1..], t, cfg);
    }
  }

  /**
   * A token minted by a completed purchase is served at most MAX_DL times by
   * any later requests, as long as none of them mints the same token again.
   */
  lemma MintedQuota(tokens: map<string, Grant>, ev: Event, t: string, now: int,
                    reqs: seq<Request>, cfg: Config)
    requires ev.kind == CompletedEvent
    requires forall i :: 0 <= i < |reqs| ==> !Mints(reqs[i], t)
    ensures Successes(tokens, [WebhookReq(true, ev, t, now)] + reqs, t, cfg) <= cfg.maxDl
  {
    var all := [WebhookReq(true, ev, t, now)] + reqs;
    assert all[1..] == reqs;
    QuotaBound(Next(tokens, all[0], cfg), reqs, t, cfg);
  }

  /**
   * Downloads of a known token that arrive before its expiry, with the master
   * file present and the stamper succeeding, are all served until the quota
   * is spent, and none after.
   */
  lemma {:induction false} ExactQuota(tokens: map<string, Grant>, reqs: seq<Request>, t: string, cfg: Config)
    requires t in tokens
    requires forall i :: 0 <= i < |reqs| ==>
      reqs[i].DownloadReq? && reqs[i].token == t && reqs[i].contentPresent && reqs[i].stampOk
      && reqs[i].now <= tokens[t].expireAt
    ensures Successes(tokens, reqs, t, cfg) == Min(|reqs|, Budget(tokens, t))
    decreases |reqs|
  {
    if reqs != [] {
      var next := Next(tokens, reqs[0], cfg);
      var rest := reqs[1..];
      assert forall i :: 0 <= i < |rest| ==> !Mints(rest[i], t) by {
        forall i | 0 <= i < |rest| ensures !Mints(rest[i], t) {
          assert rest[i] == reqs[i + 1];
        }
      }
      if t in next {
        assert forall i :: 0 <= i < |rest| ==> rest[i] == reqs[i + 1];
        ExactQuota(next, rest, t, cfg);
      } else {
        QuotaBound(next, rest, t, cfg);
      }
    }
  }

  /**
   * After a completed purchase mints `t`, downloads of `t` that arrive no later
   * than its expiry, with the master file present and the stamper succeeding,
   * are served exactly min(k, MAX_DL) times.
   */
  lemma MintedExactQuota(tokens: map<string, Grant>, ev: Event, t: string, now: int,
                         reqs: seq<Request>, cfg: Config)
    requires ev.kind == CompletedEvent
    requires forall i :: 0 <= i < |reqs| ==>
      reqs[i].DownloadReq? && reqs[i].token == t && reqs[i].contentPresent && reqs[i].stampOk
      && reqs[i].now <= now + cfg.ttlHours * MsPerHour
    ensures Successes(tokens, [WebhookReq(true, ev, t, now)] + reqs, t, cfg) == Min(|reqs|, cfg.maxDl)
  {
    var all := [WebhookReq(true, ev, t, now)] + reqs;
    assert all[1..] == reqs;
    ExactQuota(Next(tokens, all[0], cfg), reqs, t, cfg);
  }

  /**
   * With MAX_DL at least 1, no request sequence ever leaves a grant without a
   * use in the store: exhausted grants are deleted, never written back.
   */
  lemma {:induction false} RunKeepsAllLive(tokens: map<string, Grant>, reqs: seq<Request>, cfg: Config)
    requires AllLive(tokens) && cfg.maxDl >= 1
    ensures AllLive(Run(tokens, reqs, cfg))
    decreases |reqs|
  {
    if reqs != [] {
      var next := Next(tokens, reqs[0], cfg);
      assert AllLive(next) by {
        forall k | k in next ensures next[k].remaining >= 1 {
          match reqs[0]
          case DownloadReq(u, now, c, s) =>
            if k == u {
              assert !Stale(next[k], now);
            }
          case WebhookReq(v, ev, u, now) =>
        }
      }
      RunKeepsAllLive(next, reqs[1..], cfg);
    }
  }

  /**
   * A grant with two uses: the first download is served and leaves one use,
   * the second is served and evicts the grant, the third is denied.
   */
  lemma TwoUseScenario(now: int)
    ensures var g := Grant("a@b.com", "sess_1", now + 3600000, 2);
      var s0 := map["T1" := g];
      var r1 := DownloadStep(s0, "T1", now, true, true);
      var r2 := DownloadStep(r1.tokens, "T1", now, true, true);
      var r3 := DownloadStep(r2.tokens, "T1", now, true, true);
      && r1.reply == Pdf(PdfType, PdfName, Watermark("a@b.com", "sess_1", now))
      && r1.tokens == map["T1" := g.(remaining := 1)]
      && r2.reply.Pdf? && r2.tokens == map[]
      && r3.reply == Forbidden(InvalidLink)
  {
  }

  /** A grant is still served at the instant it expires: the expiry comparison is strict. */
  lemma ExpiryInstantServed(tokens: map<string, Grant>, t: string)
    requires t in tokens && tokens[t].remaining >= 1
    ensures DownloadStep(tokens, t, tokens[t].expireAt, true, true).reply.Pdf?
    ensures DownloadStep(tokens, t, tokens[t].expireAt + 1, true, true).reply == Forbidden(LinkExpired)
  {
  }

  /** A bad signature mints nothing, even for a completed-payment event. */
  lemma TamperedWebhook(tokens: map<string, Grant>, ev: Event, t: string, now: int, cfg: Config)
    ensures Run(tokens, [WebhookReq(false, ev, t, now)], cfg) == tokens
  {
  }
}
