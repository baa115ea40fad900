/** The chain that re-anchors after every append, and the daily check that may re-anchor. */
module Anchored {
  import opened Text
  import opened Json
  import opened Chain
  import opened Store
  import opened Registry
  import opened Signatures
  import opened Anchor
  import opened AnchorProofs

  class AnchoredAuditChain {
    const chain: AuditChain
    const anchor: ChainAnchor

    constructor (chain: AuditChain, anchor: ChainAnchor)
      ensures this.chain == chain && this.anchor == anchor
    {
      this.chain, this.anchor := chain, anchor;
    }

    /** The wrapper's initializer: it never overwrites an anchor, and refuses one signed by a key that is neither
        its own nor the registry's current or recovery key. */
    static method Open(chain: AuditChain, anchor: ChainAnchor, now: string) returns (r: Option<AnchoredAuditChain>)
      requires anchor.Valid()
      modifies anchor.file
      ensures var stored, reg := old(anchor.file.stored), anchor.registry.View();
        && (stored.Some? ==>
              && anchor.file.stored == stored
              && (r.Some? <==> stored.value.publicKey == anchor.key || IsRecovery(reg, stored.value.publicKey)
                               || IsCurrent(reg, stored.value.publicKey)))
        && (stored.None? ==>
              && (r.Some? <==> anchor.signer.Some? && AllParse(chain.rows))
              && (r.Some? ==> anchor.file.stored == Some(HonestRecord(anchor.signer.value, anchor.dbPath, chain.rows, now))))
      ensures r.Some? ==> r.value.chain == chain && r.value.anchor == anchor
    {
      if anchor.file.stored.Some? {
        var key, reg := anchor.file.stored.value.publicKey, anchor.registry.View();
        if key != anchor.key && !IsRecovery(reg, key) && !IsCurrent(reg, key) {
          return None;
        }
      } else {
        var ok := anchor.Anchor(chain, now);
        if !ok {
          return None;
        }
      }
      var wrapper := new AnchoredAuditChain(chain, anchor);
      return Some(wrapper);
    }

    /** Append and sign the new tip, without looking at the old anchor; on a valid chain, with the registry's
        current key, the anchor is then trusted. */
    method Append(component: string, eventType: string, payload: Value, timestamp: string, now: string)
        returns (r: AppendResult, anchored: bool)
      requires chain.Valid() && anchor.Valid() && WellFormed(payload)
      modifies chain`rows, chain`counter, anchor.file
      ensures !r.Appended? ==> !anchored && chain.rows == old(chain.rows) && anchor.file.stored == old(anchor.file.stored)
      ensures r.Appended? ==> chain.rows == old(chain.rows) + [r.row]
      ensures anchored <==> r.Appended? && anchor.signer.Some? && AllParse(chain.rows)
      ensures anchored ==>
        anchor.file.stored == Some(HonestRecord(anchor.signer.value, anchor.dbPath, chain.rows, now))
      ensures anchored && IsCurrent(anchor.registry.View(), anchor.key) && !IsRevoked(anchor.registry.View(), anchor.key) ==>
        VerifyAnchor(anchor.Who(), anchor.registry.View(), anchor.file.stored, chain.rows) == Trusted(|chain.rows|)
      ensures ChainOk(old(chain.rows)) ==> ChainOk(chain.rows)
    {
      r := chain.Append(component, eventType, payload, timestamp);
      if !r.Appended? {
        return r, false;
      }
      anchored := anchor.Anchor(chain, now);
      if anchored {
        var reg := anchor.registry.View();
        if IsCurrent(reg, anchor.key) && !IsRevoked(reg, anchor.key) {
          HonestPassesKeyChecks(anchor.signer.value, true, reg, anchor.dbPath, chain.rows, now);
          FreshAnchorTrusted(anchor.Who(), reg, anchor.signer.value, anchor.dbPath, chain.rows, now);
        }
      }
    }
  }

  // ---------- The daily check ----------

  predicate ReAnchors(who: Keyholder, reg: Registry, stored: Option<AnchorRecord>, rows: seq<Row>, auto: bool) {
    auto && VerdictOf(rows).Valid? && VerifyAnchor(who, reg, stored, rows).Stale?
  }

  /** What the check leaves in the anchor file. */
  function AfterCheck(backend: Backend, reg: Registry, dbPath: string, stored: Option<AnchorRecord>, rows: seq<Row>,
                      auto: bool, now: string): (after: Option<AnchorRecord>)
    ensures stored.Some? ==> after.Some?
  {
    var who := Keyholder(backend.key, backend.algorithm, true);
    if ReAnchors(who, reg, stored, rows, auto) then Some(HonestRecord(backend, dbPath, rows, now)) else stored
  }

  /** The check of the launchd job; None is the exception an unreadable payload raises. */
  method VerifyDaemon(chain: AuditChain, anchor: ChainAnchor, auto: bool, now: string)
      returns (r: Option<(bool, AnchorVerdict)>)
    requires anchor.Valid() && anchor.signer.Some?
    modifies anchor.file
    ensures anchor.file.stored
         == AfterCheck(anchor.signer.value, anchor.registry.View(), anchor.dbPath, old(anchor.file.stored), chain.rows, auto, now)
    ensures r == None <==> VerdictOf(chain.rows).Unparseable?
    ensures r.Some? ==>
      && r.value.0 == ChainOk(chain.rows)
      && r.value.1 == VerifyAnchor(anchor.Who(), anchor.registry.View(), anchor.file.stored, chain.rows)
  {
    VerdictExact(chain.rows);
    var internal := chain.VerifyChain();
    if internal.Unparseable? {
      return None;
    }
    var anchored := anchor.Verify(chain);
    if auto && internal.Valid? && anchored.Stale? {
      ValidRowsParse(chain.rows);
      var ok := anchor.Anchor(chain, now);
      anchored := anchor.Verify(chain);
    }
    return Some((internal.Valid?, anchored));
  }
}
