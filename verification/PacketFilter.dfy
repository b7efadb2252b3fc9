/** The filter object in front of a replaceable processor; each of its methods is a step of the filter. */
module PacketFilter {
  import opened Wrappers
  import opened AclRules
  import opened AclProcessing
  import opened AclFilter
  import opened AclProcessor

  class PacketFilter {
    var processor: Processor
    var enabled: bool
    var quicPort: nat

    /** The state of the filter at time `now`. */
    ghost function View(now: nat): Filter
      reads this, processor
    {
      Filter(Base(processor.rules, enabled, quicPort, now, processor.SharedState()), processor.cache)
    }

    ghost predicate Valid(now: nat)
      reads this, processor
    {
      Ok(View(now)) && processor.cacheMaxSize == CACHE_MAX_SIZE
    }

    constructor (now: nat)
      ensures Valid(now) && fresh(processor) && !enabled && quicPort == 0
      ensures View(now).base.shared == Shared(map[], map[], map[]) && View(now).cache == map[]
    {
      processor := new Processor([], map[], map[], CACHE_MAX_SIZE);
      enabled, quicPort := false, 0;
    }

    /** Swaps in a processor for the new rules that inherits connections and buckets. */
    method ReloadRules(config: Option<seq<Chain>>, now: nat)
      requires Valid(now)
      modifies this
      ensures Valid(now)
      ensures Step(old(View(now)), Reload(config), View(now), None)
    {
      hide Build, EntryOk;
      if config.None? {
        enabled := false;
        return;
      }
      processor := new Processor(config.value, processor.conns, processor.buckets, CACHE_MAX_SIZE);
      enabled := true;
    }

    /** Whether a packet may pass; `out` is the verdict, if one was needed. */
    method ProcessPacketWithAcl(raw: RawPacket, isIn: bool, my4: Option<nat>, my6: Option<nat>, now: nat)
      returns (pass: bool, out: Option<Outcome>)
      requires Valid(now)
      modifies processor
      ensures Valid(now)
      ensures Step(old(View(now)), Incoming(raw, isIn, my4, my6), View(now), out)
      ensures var r := BaseNext(old(View(now)).base, Incoming(raw, isIn, my4, my6)).1;
              pass <==> (r.Some? ==> r.value.action != Drop)
    {
      ghost var before := View(now);
      ghost var event := Incoming(raw, isIn, my4, my6);
      if !enabled {
        return true, None;
      }
      var info := ExtractPacketInfo(raw);
      if info.None? {
        return true, None;
      }
      if IsQuic(info.value, quicPort, my4, my6) {
        return true, None;
      }
      var chain := if !isIn then Outbound else if IsMine(info.value.dstIp, my4, my6) then Inbound else Forward;
      var verdict := processor.ProcessPacket(info.value, chain, now);
      out := Some(verdict);
      hide Processes, Ok, BaseNext;
      StepAgrees(before, event, View(now), out);
      pass := verdict.result.action != Drop;
    }
  }
}
