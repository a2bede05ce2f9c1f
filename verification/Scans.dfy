/**
 Port-scan evidence: for each source the probes it made lately, with counts derived from them kept
 in step, and two latches that decide when a finding is reported again.
 */
module Scans {
  import opened Bytes
  import opened Collections
  import opened Flows

  /** A port on a target. */
  datatype Probe = Probe(target: Addr, port: Uint16)

  /** When a probe was last sent, and whether it was ever answered. */
  datatype Obs = Obs(last: Time, answered: bool)

  /** The evidence against one source, and what was already reported. */
  datatype Track = Track(obs: map<Probe, Obs>, syns: nat, last: Time, vertical: bool, horizontal: bool)

  const NEW_TRACK := Track(map[], 0, UNSET, false, false)

  datatype ScanConfig = ScanConfig(
    verticalPorts: nat,
    horizontalHosts: nat,
    window: nat,
    maxAnsweredRatio: real,
    maxTracked: nat,
    maxPortsPerTarget: nat,
    maxTargetsPerPort: nat)
  {
    /** Every limit is positive, as the constructor leaves them. */
    predicate Sane() {
      verticalPorts > 0 && horizontalHosts > 0 && window > 0 && maxAnsweredRatio > 0.0
      && maxTracked > 0 && maxPortsPerTarget > 0 && maxTargetsPerPort > 0
    }
  }

  // --- the derived counts ---

  /** How many distinct ports were probed on a target. */
  function PortsOn(keys: set<Probe>, target: Addr): nat {
    |set k | k in keys && k.target == target|
  }

  /** How many distinct targets were probed on a port. */
  function TargetsOn(keys: set<Probe>, port: Uint16): nat {
    |set k | k in keys && k.port == port|
  }

  lemma PortsGrow(keys: set<Probe>, k: Probe, a: Addr)
    requires k !in keys
    ensures PortsOn(keys + {k}, a) == PortsOn(keys, a) + if a == k.target then 1 else 0
  {
    var was := set x | x in keys && x.target == a;
    assert (set x | x in keys + {k} && x.target == a) == if a == k.target then was + {k} else was;
  }

  lemma TargetsGrow(keys: set<Probe>, k: Probe, q: Uint16)
    requires k !in keys
    ensures TargetsOn(keys + {k}, q) == TargetsOn(keys, q) + if q == k.port then 1 else 0
  {
    var was := set x | x in keys && x.port == q;
    assert (set x | x in keys + {k} && x.port == q) == if q == k.port then was + {k} else was;
  }

  lemma CountsGrow(keys: set<Probe>, k: Probe)
    requires k !in keys
    ensures forall a :: PortsOn(keys + {k}, a) == PortsOn(keys, a) + if a == k.target then 1 else 0
    ensures forall q :: TargetsOn(keys + {k}, q) == TargetsOn(keys, q) + if q == k.port then 1 else 0
  {
    hide PortsOn, TargetsOn;
    forall a ensures PortsOn(keys + {k}, a) == PortsOn(keys, a) + if a == k.target then 1 else 0 {
      PortsGrow(keys, k, a);
    }
    forall q ensures TargetsOn(keys + {k}, q) == TargetsOn(keys, q) + if q == k.port then 1 else 0 {
      TargetsGrow(keys, k, q);
    }
  }

  /** No target was probed on as many ports as the bound. */
  ghost predicate NarrowTargets(keys: set<Probe>, bound: nat) { forall a :: PortsOn(keys, a) < bound }

  ghost predicate NarrowPorts(keys: set<Probe>, bound: nat) { forall q :: TargetsOn(keys, q) < bound }

  // --- what each event does to a source ---

  function Probed(t: Track, k: Probe, now: Time, cfg: ScanConfig): Track {
    if k in t.obs then t.(obs := t.obs[k := t.obs[k].(last := now)])
    else if Refused(t, k, cfg) then t
    else t.(obs := t.obs[k := Obs(now, false)])
  }

  /** A cap keeps a new probe out. */
  predicate Refused(t: Track, k: Probe, cfg: ScanConfig) {
    && k !in t.obs
    && (PortsOn(t.obs.Keys, k.target) >= cfg.maxPortsPerTarget || TargetsOn(t.obs.Keys, k.port) >= cfg.maxTargetsPerPort)
  }

  function SynTrack(t: Track, k: Probe, now: Time, cfg: ScanConfig): Track {
    Probed(t.(syns := t.syns + 1, last := now), k, now, cfg)
  }

  function OpenTrack(t: Track, k: Probe): Track {
    if k in t.obs then t.(obs := t.obs[k := t.obs[k].(answered := true)]) else t
  }

  function Recent(obs: map<Probe, Obs>, cutoff: Time): map<Probe, Obs> {
    map k | k in obs && obs[k].last >= cutoff :: obs[k]
  }

  function AnsweredAmong(obs: map<Probe, Obs>, keys: set<Probe>): set<Probe> {
    set k | k in keys && k in obs && obs[k].answered
  }

  function AnsweredCount(obs: map<Probe, Obs>): nat { |AnsweredAmong(obs, obs.Keys)| }

  lemma AnsweredOne(obs: map<Probe, Obs>, keys: set<Probe>, k: Probe)
    requires k in obs && k !in keys
    ensures |AnsweredAmong(obs, keys + {k})| == |AnsweredAmong(obs, keys)| + if obs[k].answered then 1 else 0
  {
    assert AnsweredAmong(obs, keys + {k}) == AnsweredAmong(obs, keys) + if obs[k].answered then {k} else {};
  }

  /** At most this share of the probes got an answer. */
  predicate ScanLike(obs: map<Probe, Obs>, maxRatio: real) {
    obs != map[] && AnsweredCount(obs) as real / |obs| as real <= maxRatio
  }

  /** A finding is reported when its shape is wide and it is not latched. */
  ghost predicate VerticalFinding(t: Track, cutoff: Time, cfg: ScanConfig) {
    var obs := Recent(t.obs, cutoff);
    ScanLike(obs, cfg.maxAnsweredRatio) && !t.vertical && !NarrowTargets(obs.Keys, cfg.verticalPorts)
  }

  ghost predicate HorizontalFinding(t: Track, cutoff: Time, cfg: ScanConfig) {
    var obs := Recent(t.obs, cutoff);
    ScanLike(obs, cfg.maxAnsweredRatio) && !t.horizontal && !NarrowPorts(obs.Keys, cfg.horizontalHosts)
  }

  /** The source after a scoring pass. */
  ghost function Ticked(t: Track, cutoff: Time, cfg: ScanConfig): Track {
    var obs := Recent(t.obs, cutoff);
    t.(obs := obs,
       vertical := (t.vertical && !NarrowTargets(obs.Keys, cfg.verticalPorts)) || VerticalFinding(t, cutoff, cfg),
       horizontal := (t.horizontal && !NarrowPorts(obs.Keys, cfg.horizontalHosts)) || HorizontalFinding(t, cutoff, cfg))
  }

  /** Nothing is left of the source and it has been quiet. */
  predicate Stale(t: Track, cutoff: Time) { Recent(t.obs, cutoff) == map[] && t.last < cutoff }

  // --- whole runs ---

  datatype ScanEvent = Seen(p: Packet) | Tick(now: Time)

  function ProbeOf(p: Packet): Probe { Probe(p.dst.addr, p.dst.port) }

  function AnswerOf(p: Packet): Probe { Probe(p.src.addr, p.src.port) }

  function OnSyn(m: map<Addr, Track>, p: Packet, cfg: ScanConfig): map<Addr, Track> {
    if p.src.addr !in m && |m| >= cfg.maxTracked then m
    else m[p.src.addr := SynTrack(if p.src.addr in m then m[p.src.addr] else NEW_TRACK, ProbeOf(p), p.timestamp, cfg)]
  }

  function OnSynAck(m: map<Addr, Track>, p: Packet): map<Addr, Track> {
    if p.dst.addr in m then m[p.dst.addr := OpenTrack(m[p.dst.addr], AnswerOf(p))] else m
  }

  ghost function OnTick(m: map<Addr, Track>, cutoff: Time, cfg: ScanConfig): map<Addr, Track> {
    map a | a in m && !Stale(m[a], cutoff) :: Ticked(m[a], cutoff, cfg)
  }

  ghost function Step(m: map<Addr, Track>, e: ScanEvent, cfg: ScanConfig): map<Addr, Track> {
    match e
    case Seen(p) => if p.IsSyn() then OnSyn(m, p, cfg) else if p.IsSynAck() then OnSynAck(m, p) else m
    case Tick(now) => OnTick(m, now - cfg.window, cfg)
  }

  /** The tracks after every event, in order. */
  ghost function Run(es: seq<ScanEvent>, cfg: ScanConfig): map<Addr, Track> {
    if es == [] then map[] else Step(Run(es[..|es| - 1], cfg), es[|es| - 1], cfg)
  }

  // --- evidence is exactly the latest SYNs in the window ---

  /** The latest SYN for a probe, and whether a limit refused it. */
  datatype Latest = Never | Syn(time: Time, refused: bool)

  ghost predicate RefusedBy(m: map<Addr, Track>, p: Packet, cfg: ScanConfig) {
    if p.src.addr in m then Refused(m[p.src.addr], ProbeOf(p), cfg)
    else |m| >= cfg.maxTracked || Refused(NEW_TRACK, ProbeOf(p), cfg)
  }

  /** A SYN without ACK from this source to this port of this target. */
  ghost predicate IsProbe(e: ScanEvent, src: Addr, k: Probe) {
    && e.Seen? && e.p.proto == 6 && e.p.syn && !e.p.ack
    && e.p.src.addr == src && e.p.dst == Endpoint(k.target, k.port)
  }

  /** A SYN with ACK from this port of this target back to this source. */
  ghost predicate IsAnswer(e: ScanEvent, src: Addr, k: Probe) {
    && e.Seen? && e.p.proto == 6 && e.p.syn && e.p.ack
    && e.p.dst.addr == src && e.p.src == Endpoint(k.target, k.port)
  }

  lemma EventIs(p: Packet, src: Addr, k: Probe)
    ensures IsProbe(Seen(p), src, k) <==> p.IsSyn() && p.src.addr == src && ProbeOf(p) == k
    ensures IsAnswer(Seen(p), src, k) <==> !p.IsSyn() && p.IsSynAck() && p.dst.addr == src && AnswerOf(p) == k
  {
  }

  ghost function LatestSyn(es: seq<ScanEvent>, src: Addr, k: Probe, cfg: ScanConfig): Latest {
    if es == [] then Never
    else
      var e, before := es[|es| - 1], es[..|es| - 1];
      if IsProbe(e, src, k) then Syn(e.p.timestamp, RefusedBy(Run(before, cfg), e.p, cfg))
      else LatestSyn(before, src, k, cfg)
  }

  /** Scoring passes never go back in time. */
  ghost predicate TicksForward(es: seq<ScanEvent>) {
    forall i, j | 0 <= i < j < |es| && es[i].Tick? && es[j].Tick? :: es[i].now <= es[j].now
  }

  function ObsOf(m: map<Addr, Track>, src: Addr, k: Probe): Option<Obs> {
    if src in m && k in m[src].obs then Some(m[src].obs[k]) else None
  }

  /** Between passes: an accepted SYN is on record unless some pass found it too old. */
  ghost predicate Accounts(o: Option<Obs>, l: Latest, es: seq<ScanEvent>, cfg: ScanConfig) {
    match l
    case Never => o.None?
    case Syn(time, refused) =>
      && (o.Some? ==> !refused && o.value.last == time)
      && (o.None? && !refused ==> exists i :: 0 <= i < |es| && es[i].Tick? && time < es[i].now - cfg.window)
  }

  lemma SynAccounts(m: map<Addr, Track>, p: Packet, cfg: ScanConfig, src: Addr, k: Probe)
    ensures ObsOf(OnSyn(m, p, cfg), src, k) ==
            if src == p.src.addr && k == ProbeOf(p) then
              if RefusedBy(m, p, cfg) then None
              else Some(Obs(p.timestamp, ObsOf(m, src, k).Some? && ObsOf(m, src, k).value.answered))
            else ObsOf(m, src, k)
  {
    hide PortsOn, TargetsOn;
  }

  lemma SynAckAccounts(m: map<Addr, Track>, p: Packet, src: Addr, k: Probe)
    ensures ObsOf(OnSynAck(m, p), src, k) ==
            if src == p.dst.addr && k == AnswerOf(p) && ObsOf(m, src, k).Some? then Some(Obs(ObsOf(m, src, k).value.last, true))
            else ObsOf(m, src, k)
  {
  }

  lemma TickAccounts(m: map<Addr, Track>, cutoff: Time, cfg: ScanConfig, src: Addr, k: Probe)
    ensures ObsOf(OnTick(m, cutoff, cfg), src, k) ==
            if ObsOf(m, src, k).Some? && ObsOf(m, src, k).value.last >= cutoff then ObsOf(m, src, k) else None
  {
    if src in m && k in m[src].obs && m[src].obs[k].last >= cutoff {
      assert k in Recent(m[src].obs, cutoff);
    }
  }

  lemma {:induction false} RunAccounts(es: seq<ScanEvent>, cfg: ScanConfig, src: Addr, k: Probe)
    ensures Accounts(ObsOf(Run(es, cfg), src, k), LatestSyn(es, src, k, cfg), es, cfg)
    decreases |es|
  {
    if es != [] {
      var e, before := es[|es| - 1], es[..|es| - 1];
      var m := Run(before, cfg);
      RunAccounts(before, cfg, src, k);
      hide OnSyn, OnSynAck, OnTick, ObsOf, RefusedBy, ProbeOf, AnswerOf, IsProbe, IsAnswer, Packet.IsSyn;
      hide Packet.IsSynAck;
      match e {
        case Seen(p) =>
          SynAccounts(m, p, cfg, src, k);
          SynAckAccounts(m, p, src, k);
          EventIs(p, src, k);
        case Tick(now) =>
          TickAccounts(m, now - cfg.window, cfg, src, k);
          assert es[|es| - 1].Tick?;
      }
      AccountsGrows(before, es, cfg);
    }
  }

  lemma AccountsGrows(before: seq<ScanEvent>, es: seq<ScanEvent>, cfg: ScanConfig)
    requires before <= es
    ensures forall o, l :: Accounts(o, l, before, cfg) ==> Accounts(o, l, es, cfg)
  {
  }

  /**
   After a scoring pass, whatever happened before, a source's evidence is exactly the probes whose
   latest SYN is within the window and was not refused by a limit, each with the time of that SYN.
   */
  lemma EvidenceExact(es: seq<ScanEvent>, now: Time, cfg: ScanConfig, src: Addr, k: Probe)
    requires TicksForward(es + [Tick(now)])
    ensures var o, l := ObsOf(Run(es + [Tick(now)], cfg), src, k), LatestSyn(es, src, k, cfg);
            && (o.Some? <==> l.Syn? && !l.refused && l.time >= now - cfg.window)
            && (o.Some? ==> o.value.last == l.time)
  {
    var all := es + [Tick(now)];
    assert all[..|es|] == es;
    RunAccounts(es, cfg, src, k);
    TickAccounts(Run(es, cfg), now - cfg.window, cfg, src, k);
    forall i | 0 <= i < |es| && es[i].Tick? ensures es[i].now <= now {
      assert all[i] == es[i] && all[|es|] == Tick(now);
    }
  }

  // --- a probe is answered exactly when its SYN-ACK came while it was on record ---

  /** The probe is on record before event `n`. */
  ghost predicate OnRecord(es: seq<ScanEvent>, n: nat, src: Addr, k: Probe, cfg: ScanConfig) {
    n <= |es| && ObsOf(Run(es[..n], cfg), src, k).Some?
  }

  ghost predicate OnRecordFrom(es: seq<ScanEvent>, i: nat, src: Addr, k: Probe, cfg: ScanConfig) {
    forall n: nat | i <= n <= |es| :: OnRecord(es, n, src, k, cfg)
  }

  /** An answer came since the probe was entered: it has been on record from that answer on. */
  ghost predicate AnsweredSince(es: seq<ScanEvent>, src: Addr, k: Probe, cfg: ScanConfig) {
    exists i :: 0 <= i < |es| && IsAnswer(es[i], src, k) && OnRecordFrom(es, i, src, k, cfg)
  }

  lemma RecordPrefix(es: seq<ScanEvent>, e: ScanEvent, src: Addr, k: Probe, cfg: ScanConfig)
    ensures forall n | 0 <= n <= |es| :: OnRecord(es + [e], n, src, k, cfg) == OnRecord(es, n, src, k, cfg)
    ensures OnRecord(es, |es|, src, k, cfg) <==> ObsOf(Run(es, cfg), src, k).Some?
    ensures OnRecord(es + [e], |es| + 1, src, k, cfg) <==> ObsOf(Step(Run(es, cfg), e, cfg), src, k).Some?
  {
    hide Step, ObsOf;
    var all := es + [e];
    forall n | 0 <= n <= |es| ensures all[..n] == es[..n] {
    }
    assert es[..|es|] == es && all[..|es| + 1] == all && all[..|es|] == es;
  }

  lemma FromPrefix(es: seq<ScanEvent>, e: ScanEvent, i: nat, src: Addr, k: Probe, cfg: ScanConfig)
    requires i <= |es| && OnRecord(es + [e], |es| + 1, src, k, cfg)
    ensures OnRecordFrom(es + [e], i, src, k, cfg) <==> OnRecordFrom(es, i, src, k, cfg)
  {
    hide OnRecord;
    RecordPrefix(es, e, src, k, cfg);
    if OnRecordFrom(es, i, src, k, cfg) {
      forall n: nat | i <= n <= |es| + 1 ensures OnRecord(es + [e], n, src, k, cfg) {
      }
    }
    if OnRecordFrom(es + [e], i, src, k, cfg) {
      forall n: nat | i <= n <= |es| ensures OnRecord(es, n, src, k, cfg) {
        assert OnRecord(es + [e], n, src, k, cfg);
      }
    }
  }

  /** One more event answers a probe that stays on record only if it is that probe's answer. */
  lemma AnsweredNext(es: seq<ScanEvent>, e: ScanEvent, src: Addr, k: Probe, cfg: ScanConfig)
    requires OnRecord(es + [e], |es| + 1, src, k, cfg)
    ensures AnsweredSince(es + [e], src, k, cfg)
            <==> OnRecord(es, |es|, src, k, cfg) && (AnsweredSince(es, src, k, cfg) || IsAnswer(e, src, k))
  {
    hide OnRecord, IsAnswer;
    var all := es + [e];
    if i :| 0 <= i < |all| && IsAnswer(all[i], src, k) && OnRecordFrom(all, i, src, k, cfg) {
      FromPrefix(es, e, i, src, k, cfg);
      assert OnRecord(es, |es|, src, k, cfg);
      if i < |es| {
        assert all[i] == es[i];
      }
    }
    if i :| 0 <= i < |es| && IsAnswer(es[i], src, k) && OnRecordFrom(es, i, src, k, cfg) {
      FromPrefix(es, e, i, src, k, cfg);
      assert all[i] == es[i];
    }
    if OnRecord(es, |es|, src, k, cfg) && IsAnswer(e, src, k) {
      LastOnRecord(es, src, k, cfg);
      FromPrefix(es, e, |es|, src, k, cfg);
      assert all[|es|] == e;
    }
  }

  lemma LastOnRecord(es: seq<ScanEvent>, src: Addr, k: Probe, cfg: ScanConfig)
    requires OnRecord(es, |es|, src, k, cfg)
    ensures OnRecordFrom(es, |es|, src, k, cfg)
  {
  }

  /** On every run, a probe on record is answered exactly when some SYN-ACK for it came since it was entered. */
  lemma {:induction false} RunAnswered(es: seq<ScanEvent>, cfg: ScanConfig, src: Addr, k: Probe)
    ensures var o := ObsOf(Run(es, cfg), src, k);
            o.Some? ==> (o.value.answered <==> AnsweredSince(es, src, k, cfg))
    decreases |es|
  {
    if es != [] {
      hide OnSyn, OnSynAck, OnTick, ObsOf, RefusedBy, ProbeOf, AnswerOf, IsProbe, IsAnswer, AnsweredSince, OnRecord;
      hide Packet.IsSyn, Packet.IsSynAck;
      var e, before := es[|es| - 1], es[..|es| - 1];
      assert es == before + [e];
      var m := Run(before, cfg);
      RunAnswered(before, cfg, src, k);
      RecordPrefix(before, e, src, k, cfg);
      if ObsOf(Run(es, cfg), src, k).Some? {
        AnsweredNext(before, e, src, k, cfg);
        match e {
          case Seen(p) =>
            SynAccounts(m, p, cfg, src, k);
            SynAckAccounts(m, p, src, k);
            EventIs(p, src, k);
          case Tick(now) =>
            TickAccounts(m, now - cfg.window, cfg, src, k);
            TickIsNoAnswer(now, src, k);
        }
      }
    }
  }

  lemma TickIsNoAnswer(now: Time, src: Addr, k: Probe)
    ensures !IsAnswer(Tick(now), src, k)
  {
  }

  /** How many SYNs a source sent since it was tracked, and when the latest came. */
  ghost function SynsSince(es: seq<ScanEvent>, src: Addr, cfg: ScanConfig): (nat, Time) {
    if es == [] || src !in Run(es, cfg) then (0, UNSET)
    else
      var e, before := es[|es| - 1], SynsSince(es[..|es| - 1], src, cfg);
      if e.Seen? && e.p.proto == 6 && e.p.syn && !e.p.ack && e.p.src.addr == src
      then (before.0 + 1, e.p.timestamp) else before
  }

  /** On every run a source is tracked with the number of its SYNs since then and the time of the latest. */
  lemma {:induction false} RunCounts(es: seq<ScanEvent>, cfg: ScanConfig, src: Addr)
    requires src in Run(es, cfg)
    ensures (Run(es, cfg)[src].syns, Run(es, cfg)[src].last) == SynsSince(es, src, cfg)
    decreases |es|
  {
    hide Step, Packet.IsSyn;
    var before, e := es[..|es| - 1], es[|es| - 1];
    StepCounts(Run(before, cfg), e, cfg, src);
    if src in Run(before, cfg) {
      RunCounts(before, cfg, src);
    }
  }

  lemma StepCounts(m: map<Addr, Track>, e: ScanEvent, cfg: ScanConfig, src: Addr)
    requires src in Step(m, e, cfg)
    ensures
      var t, u := if src in m then m[src] else NEW_TRACK, Step(m, e, cfg)[src];
      if e.Seen? && e.p.proto == 6 && e.p.syn && !e.p.ack && e.p.src.addr == src
      then u.syns == t.syns + 1 && u.last == e.p.timestamp else src in m && u.syns == t.syns && u.last == t.last
  {
    hide Refused, VerticalFinding, HorizontalFinding, Stale, NarrowTargets, NarrowPorts, ProbeOf, AnswerOf;
  }

  // --- memory stays bounded ---

  ghost predicate Capped(keys: set<Probe>, cfg: ScanConfig) {
    && (forall a :: PortsOn(keys, a) <= cfg.maxPortsPerTarget)
    && (forall q :: TargetsOn(keys, q) <= cfg.maxTargetsPerPort)
  }

  lemma CountsShrink(some: set<Probe>, all: set<Probe>)
    requires some <= all
    ensures forall a :: PortsOn(some, a) <= PortsOn(all, a)
    ensures forall q :: TargetsOn(some, q) <= TargetsOn(all, q)
  {
    forall a ensures PortsOn(some, a) <= PortsOn(all, a) {
      SubsetCount(set k | k in some && k.target == a, set k | k in all && k.target == a);
    }
    forall q ensures TargetsOn(some, q) <= TargetsOn(all, q) {
      SubsetCount(set k | k in some && k.port == q, set k | k in all && k.port == q);
    }
  }

  lemma ProbedCapped(t: Track, k: Probe, now: Time, cfg: ScanConfig)
    requires Capped(t.obs.Keys, cfg)
    ensures Capped(SynTrack(t, k, now, cfg).obs.Keys, cfg)
  {
    var keys := SynTrack(t, k, now, cfg).obs.Keys;
    if k in t.obs {
      assert keys == t.obs.Keys;
    } else {
      CountsGrow(t.obs.Keys, k);
      hide PortsOn, TargetsOn;
      assert keys == t.obs.Keys || keys == t.obs.Keys + {k};
    }
  }

  lemma EmptyCapped(cfg: ScanConfig)
    ensures Capped(NEW_TRACK.obs.Keys, cfg)
  {
    forall a ensures PortsOn({}, a) == 0 {
      assert (set k: Probe | k in {} && k.target == a) == {};
    }
    forall q ensures TargetsOn({}, q) == 0 {
      assert (set k: Probe | k in {} && k.port == q) == {};
    }
    assert NEW_TRACK.obs.Keys == {};
  }

  lemma RecentCapped(t: Track, cutoff: Time, cfg: ScanConfig)
    requires Capped(t.obs.Keys, cfg)
    ensures Capped(Ticked(t, cutoff, cfg).obs.Keys, cfg)
  {
    CountsShrink(Recent(t.obs, cutoff).Keys, t.obs.Keys);
  }

  /** Every source stays within both caps, and the sources within theirs. */
  ghost predicate Bounded(m: map<Addr, Track>, cfg: ScanConfig) {
    |m| <= cfg.maxTracked && forall a | a in m :: Capped(m[a].obs.Keys, cfg)
  }

  lemma SynBounded(m: map<Addr, Track>, p: Packet, cfg: ScanConfig)
    requires Bounded(m, cfg)
    ensures Bounded(OnSyn(m, p, cfg), cfg)
  {
    var src := p.src.addr;
    var t := if src in m then m[src] else NEW_TRACK;
    EmptyCapped(cfg);
    hide Capped, SynTrack, ProbeOf, Bounded;
    if src in m || |m| < cfg.maxTracked {
      if src in m {
        BoundedAt(m, src, cfg);
      }
      ProbedCapped(t, ProbeOf(p), p.timestamp, cfg);
      BoundedUpdate(m, src, SynTrack(t, ProbeOf(p), p.timestamp, cfg), cfg);
    }
  }

  lemma BoundedAt(m: map<Addr, Track>, src: Addr, cfg: ScanConfig)
    requires Bounded(m, cfg) && src in m
    ensures Capped(m[src].obs.Keys, cfg)
  {
  }

  lemma BoundedUpdate(m: map<Addr, Track>, src: Addr, t: Track, cfg: ScanConfig)
    requires Bounded(m, cfg) && Capped(t.obs.Keys, cfg) && (src in m || |m| < cfg.maxTracked)
    ensures Bounded(m[src := t], cfg)
  {
    hide Capped;
    assert m[src := t].Keys == m.Keys + {src};
  }

  lemma SynAckBounded(m: map<Addr, Track>, p: Packet, cfg: ScanConfig)
    requires Bounded(m, cfg)
    ensures Bounded(OnSynAck(m, p), cfg)
  {
    assert OnSynAck(m, p).Keys == m.Keys;
    hide Capped;
    forall a | a in m ensures OnSynAck(m, p)[a].obs.Keys == m[a].obs.Keys {
    }
  }

  lemma TickBounded(m: map<Addr, Track>, cutoff: Time, cfg: ScanConfig)
    requires Bounded(m, cfg)
    ensures Bounded(OnTick(m, cutoff, cfg), cfg)
  {
    hide Capped, Ticked;
    SubsetCount(OnTick(m, cutoff, cfg).Keys, m.Keys);
    forall a | a in OnTick(m, cutoff, cfg) ensures Capped(OnTick(m, cutoff, cfg)[a].obs.Keys, cfg) {
      RecentCapped(m[a], cutoff, cfg);
    }
  }

  lemma {:induction false} RunBounded(es: seq<ScanEvent>, cfg: ScanConfig)
    ensures Bounded(Run(es, cfg), cfg)
    decreases |es|
  {
    if es != [] {
      hide Bounded, Step;
      RunBounded(es[..|es| - 1], cfg);
      StepBounded(Run(es[..|es| - 1], cfg), es[|es| - 1], cfg);
    } else {
      hide Capped;
    }
  }

  lemma StepBounded(m: map<Addr, Track>, e: ScanEvent, cfg: ScanConfig)
    requires Bounded(m, cfg)
    ensures Bounded(Step(m, e, cfg), cfg)
  {
    hide Bounded, OnSyn, OnSynAck, OnTick;
    match e {
      case Seen(p) =>
        SynBounded(m, p, cfg);
        SynAckBounded(m, p, cfg);
      case Tick(now) => TickBounded(m, now - cfg.window, cfg);
    }
  }

  // --- within the limits nothing is refused ---

  /** The sources that sent SYNs. */
  ghost function Sources(es: seq<ScanEvent>): set<Addr> {
    if es == [] then {}
    else
      var e := es[|es| - 1];
      Sources(es[..|es| - 1]) + if e.Seen? && e.p.IsSyn() then {e.p.src.addr} else {}
  }

  /** What a source probed. */
  ghost function ProbesBy(es: seq<ScanEvent>, src: Addr): set<Probe> {
    if es == [] then {}
    else
      var e := es[|es| - 1];
      ProbesBy(es[..|es| - 1], src) + if e.Seen? && e.p.IsSyn() && e.p.src.addr == src then {ProbeOf(e.p)} else {}
  }

  /** What is tracked is of these sources and among their probes. */
  ghost predicate Within(m: map<Addr, Track>, es: seq<ScanEvent>) {
    m.Keys <= Sources(es) && forall a | a in m :: m[a].obs.Keys <= ProbesBy(es, a)
  }

  lemma SynWithin(m: map<Addr, Track>, es: seq<ScanEvent>, p: Packet, cfg: ScanConfig)
    requires Within(m, es) && p.IsSyn()
    ensures Within(OnSyn(m, p, cfg), es + [Seen(p)])
  {
    hide Refused;
    assert (es + [Seen(p)])[..|es|] == es;
  }

  lemma OtherWithin(m: map<Addr, Track>, es: seq<ScanEvent>, e: ScanEvent, cfg: ScanConfig)
    requires Within(m, es) && !(e.Seen? && e.p.IsSyn())
    ensures Within(Step(m, e, cfg), es + [e])
  {
    hide OnSyn, VerticalFinding, HorizontalFinding, Stale;
    assert (es + [e])[..|es|] == es;
  }

  lemma {:induction false} RunWithin(es: seq<ScanEvent>, cfg: ScanConfig)
    ensures Within(Run(es, cfg), es)
    decreases |es|
  {
    if es != [] {
      hide Within, OnSyn, OnSynAck, OnTick, Packet.IsSyn, Packet.IsSynAck;
      var e, before := es[|es| - 1], es[..|es| - 1];
      assert es == before + [e];
      RunWithin(before, cfg);
      if e.Seen? && e.p.IsSyn() {
        SynWithin(Run(before, cfg), before, e.p, cfg);
      } else {
        OtherWithin(Run(before, cfg), before, e, cfg);
      }
    }
  }

  lemma {:induction false} ProbedBefore(es: seq<ScanEvent>, n: nat, src: Addr)
    requires n <= |es|
    ensures Sources(es[..n]) <= Sources(es) && ProbesBy(es[..n], src) <= ProbesBy(es, src)
    decreases |es|
  {
    if n == |es| {
      assert es[..n] == es;
    } else {
      ProbedBefore(es[..|es| - 1], n, src);
      assert es[..|es| - 1][..n] == es[..n];
    }
  }

  /** No more sources, and no more ports of one target or targets on one port, than there is room for. */
  ghost predicate WithinLimits(es: seq<ScanEvent>, cfg: ScanConfig) {
    |Sources(es)| <= cfg.maxTracked && forall a :: Capped(ProbesBy(es, a), cfg)
  }

  /** A limit only ever refuses what is over it: on a run within the limits no SYN is refused. */
  lemma NothingRefused(es: seq<ScanEvent>, n: nat, cfg: ScanConfig)
    requires cfg.Sane() && WithinLimits(es, cfg) && n < |es| && es[n].Seen? && es[n].p.IsSyn()
    ensures !RefusedBy(Run(es[..n], cfg), es[n].p, cfg)
  {
    hide Run, Capped, ProbeOf, Packet.IsSyn, Refused;
    var p, m := es[n].p, Run(es[..n], cfg);
    var src := p.src.addr;
    RunWithin(es[..n], cfg);
    assert es[..n + 1][..n] == es[..n];
    ProbedBefore(es, n + 1, src);
    if src in m {
      RoomFor(m[src], ProbeOf(p), ProbesBy(es, src), cfg);
    } else {
      assert m.Keys + {src} <= Sources(es);
      SubsetCount(m.Keys + {src}, Sources(es));
      RoomFor(NEW_TRACK, ProbeOf(p), ProbesBy(es, src), cfg);
    }
  }

  lemma RoomFor(t: Track, k: Probe, all: set<Probe>, cfg: ScanConfig)
    requires t.obs.Keys + {k} <= all && Capped(all, cfg)
    ensures !Refused(t, k, cfg)
  {
    if k !in t.obs {
      CountsShrink(t.obs.Keys + {k}, all);
      CountsGrow(t.obs.Keys, k);
      hide PortsOn, TargetsOn;
      assert PortsOn(t.obs.Keys + {k}, k.target) <= cfg.maxPortsPerTarget;
      assert TargetsOn(t.obs.Keys + {k}, k.port) <= cfg.maxTargetsPerPort;
    }
  }

  lemma RunNext(es: seq<ScanEvent>, j: nat, cfg: ScanConfig)
    requires j < |es|
    ensures Run(es[..j + 1], cfg) == Step(Run(es[..j], cfg), es[j], cfg)
  {
    hide Step;
    assert es[..j + 1][..j] == es[..j];
  }

  // --- a finding is not repeated until its evidence has narrowed ---

  /** The two ways of scanning: many ports of one target, or one port of many targets. */
  datatype Shape = Deep | Wide

  /** The evidence is below the threshold of this shape. */
  ghost predicate Narrow(shape: Shape, keys: set<Probe>, cfg: ScanConfig) {
    match shape
    case Deep => NarrowTargets(keys, cfg.verticalPorts)
    case Wide => NarrowPorts(keys, cfg.horizontalHosts)
  }

  predicate Latched(shape: Shape, t: Track) { if shape == Deep then t.vertical else t.horizontal }

  ghost predicate FindingDue(shape: Shape, t: Track, cutoff: Time, cfg: ScanConfig) {
    if shape == Deep then VerticalFinding(t, cutoff, cfg) else HorizontalFinding(t, cutoff, cfg)
  }

  /** At this pass a scan of this shape by the source is reported. */
  ghost predicate FindingAt(shape: Shape, es: seq<ScanEvent>, i: nat, src: Addr, cfg: ScanConfig) {
    && i < |es| && es[i].Tick?
    && var m := Run(es[..i], cfg);
       src in m && FindingDue(shape, m[src], es[i].now - cfg.window, cfg)
  }

  /** What is left of a source's evidence at a pass. */
  ghost function EvidenceAt(es: seq<ScanEvent>, i: nat, src: Addr, cfg: ScanConfig): set<Probe>
    requires i < |es| && es[i].Tick?
  {
    var m := Run(es[..i], cfg);
    if src in m then Recent(m[src].obs, es[i].now - cfg.window).Keys else {}
  }

  lemma EmptyNarrow(shape: Shape, cfg: ScanConfig)
    requires cfg.Sane()
    ensures Narrow(shape, {}, cfg)
  {
    forall a ensures PortsOn({}, a) == 0 {
      assert (set k: Probe | k in {} && k.target == a) == {};
    }
    forall q ensures TargetsOn({}, q) == 0 {
      assert (set k: Probe | k in {} && k.port == q) == {};
    }
  }

  /** One event keeps a latch, unless it is a pass that finds the evidence narrow. */
  lemma LatchStep(shape: Shape, m: map<Addr, Track>, e: ScanEvent, src: Addr, cfg: ScanConfig)
    requires cfg.Sane() && src in m && Latched(shape, m[src])
    requires e.Tick? ==> !Narrow(shape, Recent(m[src].obs, e.now - cfg.window).Keys, cfg)
    ensures src in Step(m, e, cfg) && Latched(shape, Step(m, e, cfg)[src])
  {
    hide Narrow, ScanLike, VerticalFinding, HorizontalFinding;
    EmptyNarrow(shape, cfg);
    if e.Tick? {
      LatchTick(shape, m[src], e.now - cfg.window, cfg);
    }
  }

  lemma LatchTick(shape: Shape, t: Track, cutoff: Time, cfg: ScanConfig)
    requires Latched(shape, t) && !Narrow(shape, Recent(t.obs, cutoff).Keys, cfg) && Narrow(shape, {}, cfg)
    ensures !Stale(t, cutoff) && Latched(shape, Ticked(t, cutoff, cfg))
  {
    hide NarrowTargets, NarrowPorts, ScanLike;
    assert Recent(t.obs, cutoff) == map[] ==> Recent(t.obs, cutoff).Keys == {};
  }

  lemma LatchSet(shape: Shape, m: map<Addr, Track>, now: Time, src: Addr, cfg: ScanConfig)
    requires cfg.Sane() && src in m && FindingDue(shape, m[src], now - cfg.window, cfg)
    ensures src in Step(m, Tick(now), cfg) && Latched(shape, Step(m, Tick(now), cfg)[src])
  {
    hide NarrowTargets, NarrowPorts;
  }

  lemma {:induction false} LatchHolds(shape: Shape, es: seq<ScanEvent>, i: nat, j: nat, src: Addr, cfg: ScanConfig)
    requires cfg.Sane() && FindingAt(shape, es, i, src, cfg) && i < j <= |es|
    requires forall n | i < n < j && es[n].Tick? :: !Narrow(shape, EvidenceAt(es, n, src, cfg), cfg)
    ensures var m := Run(es[..j], cfg); src in m && Latched(shape, m[src])
    decreases j
  {
    hide Run, Narrow, EvidenceAt, FindingDue, Latched, Step;
    if j == i + 1 {
      RunNext(es, i, cfg);
      LatchSet(shape, Run(es[..i], cfg), es[i].now, src, cfg);
    } else {
      LatchHolds(shape, es, i, j - 1, src, cfg);
      LatchNext(shape, es, j - 1, src, cfg);
    }
  }

  lemma LatchNext(shape: Shape, es: seq<ScanEvent>, j: nat, src: Addr, cfg: ScanConfig)
    requires cfg.Sane() && j < |es| && src in Run(es[..j], cfg) && Latched(shape, Run(es[..j], cfg)[src])
    requires es[j].Tick? ==> !Narrow(shape, EvidenceAt(es, j, src, cfg), cfg)
    ensures src in Run(es[..j + 1], cfg) && Latched(shape, Run(es[..j + 1], cfg)[src])
  {
    hide Run, Step, Narrow, Recent, Latched;
    RunNext(es, j, cfg);
    LatchStep(shape, Run(es[..j], cfg), es[j], src, cfg);
  }

  /**
   Between two findings of one shape for one source, some pass saw the evidence below that shape's
   threshold; this holds however the source was forgotten and tracked again in between.
   */
  lemma NarrowedBetween(shape: Shape, es: seq<ScanEvent>, i: nat, j: nat, src: Addr, cfg: ScanConfig)
    requires cfg.Sane() && i < j && FindingAt(shape, es, i, src, cfg) && FindingAt(shape, es, j, src, cfg)
    ensures exists n :: i < n < j && es[n].Tick? && Narrow(shape, EvidenceAt(es, n, src, cfg), cfg)
  {
    if forall n | i < n < j && es[n].Tick? :: !Narrow(shape, EvidenceAt(es, n, src, cfg), cfg) {
      LatchHolds(shape, es, i, j, src, cfg);
    }
  }

  // --- findings, told from the packets alone ---

  /** Every probe any packet could be. */
  function ProbesIn(es: seq<ScanEvent>): set<Probe> {
    set i | 0 <= i < |es| && es[i].Seen? :: Probe(es[i].p.dst.addr, es[i].p.dst.port)
  }

  /** The latest SYN for the probe is no older than the cutoff and was not refused by a limit. */
  ghost predicate InWindow(es: seq<ScanEvent>, src: Addr, k: Probe, cutoff: Time, cfg: ScanConfig) {
    var l := LatestSyn(es, src, k, cfg);
    l.Syn? && !l.refused && l.time >= cutoff
  }

  /** The probes a source made within the window. */
  ghost function WindowOf(es: seq<ScanEvent>, src: Addr, cutoff: Time, cfg: ScanConfig): set<Probe> {
    set k | k in ProbesIn(es) && InWindow(es, src, k, cutoff, cfg)
  }

  /** Those of them that were answered. */
  ghost function AnsweredOf(es: seq<ScanEvent>, src: Addr, cutoff: Time, cfg: ScanConfig): set<Probe> {
    set k | k in WindowOf(es, src, cutoff, cfg) && AnsweredSince(es, src, k, cfg)
  }

  lemma {:induction false} LatestIsPacket(es: seq<ScanEvent>, src: Addr, k: Probe, cfg: ScanConfig)
    requires LatestSyn(es, src, k, cfg).Syn?
    ensures k in ProbesIn(es)
    decreases |es|
  {
    var e, before := es[|es| - 1], es[..|es| - 1];
    if IsProbe(e, src, k) {
      assert es[|es| - 1].Seen?;
    } else {
      LatestIsPacket(before, src, k, cfg);
      var i :| 0 <= i < |before| && before[i].Seen? && Probe(before[i].p.dst.addr, before[i].p.dst.port) == k;
      assert es[i] == before[i];
    }
  }

  lemma InWindowListed(es: seq<ScanEvent>, src: Addr, k: Probe, cutoff: Time, cfg: ScanConfig)
    ensures k in WindowOf(es, src, cutoff, cfg) <==> InWindow(es, src, k, cutoff, cfg)
  {
    hide ProbesIn, LatestSyn;
    if InWindow(es, src, k, cutoff, cfg) {
      LatestIsPacket(es, src, k, cfg);
    }
  }

  /** What a pass is about to keep of a source. */
  ghost function KeptOf(m: map<Addr, Track>, src: Addr, cutoff: Time): map<Probe, Obs> {
    if src in m then Recent(m[src].obs, cutoff) else map[]
  }

  lemma KeptIs(m: map<Addr, Track>, src: Addr, cutoff: Time, k: Probe)
    ensures k in KeptOf(m, src, cutoff) <==> ObsOf(m, src, k).Some? && ObsOf(m, src, k).value.last >= cutoff
    ensures k in KeptOf(m, src, cutoff) ==> KeptOf(m, src, cutoff)[k] == ObsOf(m, src, k).value
  {
  }

  /** At a pass the evidence is that of the packets: the same probes, and the same of them answered. */
  lemma WindowExact(es: seq<ScanEvent>, now: Time, src: Addr, cfg: ScanConfig)
    requires TicksForward(es + [Tick(now)])
    ensures
      var kept, cutoff := KeptOf(Run(es, cfg), src, now - cfg.window), now - cfg.window;
      kept.Keys == WindowOf(es, src, cutoff, cfg) && AnsweredAmong(kept, kept.Keys) == AnsweredOf(es, src, cutoff, cfg)
  {
    hide Run, ObsOf, KeptOf, WindowOf, AnsweredSince, LatestSyn, TicksForward, OnTick, Step;
    var m, cutoff := Run(es, cfg), now - cfg.window;
    var kept := KeptOf(m, src, cutoff);
    forall k ensures k in kept <==> k in WindowOf(es, src, cutoff, cfg)
             ensures k in kept ==> (kept[k].answered <==> AnsweredSince(es, src, k, cfg))
    {
      KeptIs(m, src, cutoff, k);
      RunAnswered(es, cfg, src, k);
      InWindowListed(es, src, k, cutoff, cfg);
      PassIs(es, now, cfg, src, k);
    }
  }

  lemma PassIs(es: seq<ScanEvent>, now: Time, cfg: ScanConfig, src: Addr, k: Probe)
    requires TicksForward(es + [Tick(now)])
    ensures var o := ObsOf(Run(es, cfg), src, k);
            InWindow(es, src, k, now - cfg.window, cfg) <==> o.Some? && o.value.last >= now - cfg.window
  {
    hide Run, ObsOf, LatestSyn, OnTick, TicksForward;
    EvidenceExact(es, now, cfg, src, k);
    TickAccounts(Run(es, cfg), now - cfg.window, cfg, src, k);
    RunTick(es, now, cfg);
  }

  lemma RunTick(es: seq<ScanEvent>, now: Time, cfg: ScanConfig)
    ensures Run(es + [Tick(now)], cfg) == OnTick(Run(es, cfg), now - cfg.window, cfg)
  {
    hide OnTick, OnSyn, OnSynAck;
    assert (es + [Tick(now)])[..|es|] == es;
  }

  /** Not more than this share of the probes was answered. */
  predicate FewAnswered(window: set<Probe>, answered: set<Probe>, maxRatio: real) {
    window != {} && |answered| as real / |window| as real <= maxRatio
  }

  /**
   At the `n`th event, a pass, a scan of this shape is to be reported of a source: few enough of its
   probes in the window were answered, they are wide, and none was reported before that has not
   narrowed since. Told from the packets, the limits' refusals and the passes alone.
   */
  ghost predicate ToReport(shape: Shape, es: seq<ScanEvent>, n: nat, src: Addr, cfg: ScanConfig)
    decreases n, 1
  {
    && n < |es| && es[n].Tick?
    && var cutoff := es[n].now - cfg.window;
       var window := WindowOf(es[..n], src, cutoff, cfg);
       && FewAnswered(window, AnsweredOf(es[..n], src, cutoff, cfg), cfg.maxAnsweredRatio)
       && !Narrow(shape, window, cfg) && !StillReported(shape, es, n, src, cfg)
  }

  /** Some earlier pass reported it, and none after that found the window narrow. */
  ghost predicate StillReported(shape: Shape, es: seq<ScanEvent>, n: nat, src: Addr, cfg: ScanConfig)
    decreases n, 0
  {
    exists i: nat :: i < n && ToReport(shape, es, i, src, cfg) && WideBetween(shape, es, i, n, src, cfg)
  }

  ghost predicate WideBetween(shape: Shape, es: seq<ScanEvent>, i: nat, n: nat, src: Addr, cfg: ScanConfig) {
    forall j | i < j < n && j < |es| && es[j].Tick? :: !Narrow(shape, WindowOf(es[..j], src, es[j].now - cfg.window, cfg), cfg)
  }

  lemma PrefixForward(es: seq<ScanEvent>, n: nat)
    requires TicksForward(es) && n < |es| && es[n].Tick?
    ensures TicksForward(es[..n] + [Tick(es[n].now)])
  {
    assert es[..n] + [Tick(es[n].now)] == es[..n + 1];
  }

  /** A track is latched after `n` events exactly when a finding was due before that has not narrowed since. */
  lemma {:induction false} LatchExact(shape: Shape, es: seq<ScanEvent>, n: nat, src: Addr, cfg: ScanConfig)
    requires cfg.Sane() && n <= |es|
    ensures var m := Run(es[..n], cfg);
            src in m && Latched(shape, m[src]) <==> exists i: nat :: i < n && LatchedFrom(shape, es, i, n, src, cfg)
    decreases n
  {
    hide Run, Latched, FindingAt, EvidenceAt, Narrow;
    if i: nat :| i < n && LatchedFrom(shape, es, i, n, src, cfg) {
      LatchHolds(shape, es, i, n, src, cfg);
    }
    if n == 0 {
      NothingLatched(cfg);
      assert es[..0] == [];
    } else if src in Run(es[..n], cfg) && Latched(shape, Run(es[..n], cfg)[src]) {
      LatchExact(shape, es, n - 1, src, cfg);
      LatchBack(shape, es, n - 1, src, cfg);
      if FindingAt(shape, es, n - 1, src, cfg) {
        assert LatchedFrom(shape, es, n - 1, n, src, cfg);
      } else {
        var i: nat :| i < n - 1 && LatchedFrom(shape, es, i, n - 1, src, cfg);
        assert LatchedFrom(shape, es, i, n, src, cfg);
      }
    }
  }

  ghost predicate LatchedFrom(shape: Shape, es: seq<ScanEvent>, i: nat, n: nat, src: Addr, cfg: ScanConfig)
    requires n <= |es|
  {
    && i < n && FindingAt(shape, es, i, src, cfg)
    && forall j | i < j < n && es[j].Tick? :: !Narrow(shape, EvidenceAt(es, j, src, cfg), cfg)
  }

  lemma NothingLatched(cfg: ScanConfig)
    ensures Run([], cfg) == map[]
  {
  }

  /** A latch set after an event was there before it, or was set by it; a pass that finds the evidence narrow sets none. */
  lemma LatchBack(shape: Shape, es: seq<ScanEvent>, j: nat, src: Addr, cfg: ScanConfig)
    requires cfg.Sane() && j < |es| && src in Run(es[..j + 1], cfg) && Latched(shape, Run(es[..j + 1], cfg)[src])
    ensures FindingAt(shape, es, j, src, cfg) ||
            (src in Run(es[..j], cfg) && Latched(shape, Run(es[..j], cfg)[src])
             && (es[j].Tick? ==> !Narrow(shape, EvidenceAt(es, j, src, cfg), cfg)))
  {
    hide Run, Step, Narrow, Recent, Latched, FindingDue;
    RunNext(es, j, cfg);
    StepLatches(shape, Run(es[..j], cfg), es[j], src, cfg);
  }

  lemma StepLatches(shape: Shape, m: map<Addr, Track>, e: ScanEvent, src: Addr, cfg: ScanConfig)
    requires src in Step(m, e, cfg) && Latched(shape, Step(m, e, cfg)[src])
    ensures (e.Tick? && src in m && FindingDue(shape, m[src], e.now - cfg.window, cfg)) ||
            (src in m && Latched(shape, m[src])
             && (e.Tick? ==> !Narrow(shape, Recent(m[src].obs, e.now - cfg.window).Keys, cfg)))
  {
    hide NarrowTargets, NarrowPorts, ScanLike, Recent, Refused, Packet.IsSyn, Packet.IsSynAck;
  }

  lemma EvidenceIs(es: seq<ScanEvent>, j: nat, src: Addr, cfg: ScanConfig)
    requires TicksForward(es) && j < |es| && es[j].Tick?
    ensures EvidenceAt(es, j, src, cfg) == WindowOf(es[..j], src, es[j].now - cfg.window, cfg)
  {
    hide Run, WindowOf, AnsweredOf, Recent, TicksForward;
    PrefixForward(es, j);
    WindowExact(es[..j], es[j].now, src, cfg);
  }

  lemma LatchedFromIs(shape: Shape, es: seq<ScanEvent>, i: nat, n: nat, src: Addr, cfg: ScanConfig)
    requires TicksForward(es) && i < n <= |es|
    ensures LatchedFrom(shape, es, i, n, src, cfg) <==>
            FindingAt(shape, es, i, src, cfg) && WideBetween(shape, es, i, n, src, cfg)
  {
    hide FindingAt, EvidenceAt, WindowOf, Narrow, TicksForward;
    forall j | i < j < n && es[j].Tick?
      ensures EvidenceAt(es, j, src, cfg) == WindowOf(es[..j], src, es[j].now - cfg.window, cfg)
    {
      EvidenceIs(es, j, src, cfg);
    }
  }

  /** What makes a finding due, in terms of what the pass keeps. */
  lemma DueIs(shape: Shape, m: map<Addr, Track>, src: Addr, cutoff: Time, cfg: ScanConfig)
    requires cfg.Sane()
    ensures
      var kept := KeptOf(m, src, cutoff);
      (src in m && FindingDue(shape, m[src], cutoff, cfg)) <==>
      && FewAnswered(kept.Keys, AnsweredAmong(kept, kept.Keys), cfg.maxAnsweredRatio)
      && !Narrow(shape, kept.Keys, cfg) && !(src in m && Latched(shape, m[src]))
  {
    hide NarrowTargets, NarrowPorts, AnsweredAmong, Recent;
    var kept := KeptOf(m, src, cutoff);
    assert kept == map[] <==> kept.Keys == {};
    assert |kept| == |kept.Keys|;
  }

  /**
   On every run whose passes never go back in time, the findings due at a pass are exactly those the
   packets call for: never for a source with more than the allowed share of its probes in the window
   answered, and always for one within it that is wide and was not reported since it last was narrow.
   */
  lemma {:induction false} FindingExact(shape: Shape, es: seq<ScanEvent>, n: nat, src: Addr, cfg: ScanConfig)
    requires cfg.Sane() && TicksForward(es) && n < |es|
    ensures FindingAt(shape, es, n, src, cfg) <==> ToReport(shape, es, n, src, cfg)
    decreases n
  {
    hide Run, FindingAt, ToReport, StillReported, FindingDue, Latched, WindowOf, AnsweredOf, FewAnswered, Narrow;
    hide TicksForward;
    if es[n].Tick? {
      forall i: nat | i < n ensures FindingAt(shape, es, i, src, cfg) <==> ToReport(shape, es, i, src, cfg) {
        FindingExact(shape, es, i, src, cfg);
      }
      LatchReported(shape, es, n, src, cfg);
      PassDue(shape, es, n, src, cfg);
      FindingUnfolds(shape, es, n, src, cfg);
    } else {
      NoPass(shape, es, n, src, cfg);
    }
  }

  /** A latch is set exactly while the packets say that the scan is still reported. */
  lemma LatchReported(shape: Shape, es: seq<ScanEvent>, n: nat, src: Addr, cfg: ScanConfig)
    requires cfg.Sane() && TicksForward(es) && n < |es|
    requires forall i: nat | i < n :: FindingAt(shape, es, i, src, cfg) <==> ToReport(shape, es, i, src, cfg)
    ensures var m := Run(es[..n], cfg);
            src in m && Latched(shape, m[src]) <==> StillReported(shape, es, n, src, cfg)
  {
    hide Run, FindingAt, ToReport, Latched, WindowOf, Narrow, TicksForward, LatchedFrom, WideBetween;
    LatchExact(shape, es, n, src, cfg);
    forall i: nat | i < n
      ensures LatchedFrom(shape, es, i, n, src, cfg) <==> ToReport(shape, es, i, src, cfg) && WideBetween(shape, es, i, n, src, cfg)
    {
      LatchedFromIs(shape, es, i, n, src, cfg);
    }
  }

  lemma PassDue(shape: Shape, es: seq<ScanEvent>, n: nat, src: Addr, cfg: ScanConfig)
    requires cfg.Sane() && TicksForward(es) && n < |es| && es[n].Tick?
    ensures
      var m, cutoff := Run(es[..n], cfg), es[n].now - cfg.window;
      var window := WindowOf(es[..n], src, cutoff, cfg);
      (src in m && FindingDue(shape, m[src], cutoff, cfg)) <==>
      && FewAnswered(window, AnsweredOf(es[..n], src, cutoff, cfg), cfg.maxAnsweredRatio)
      && !Narrow(shape, window, cfg) && !(src in m && Latched(shape, m[src]))
  {
    hide Run, FindingDue, Latched, KeptOf, WindowOf, AnsweredOf, AnsweredAmong, FewAnswered, Narrow, TicksForward;
    PrefixForward(es, n);
    WindowExact(es[..n], es[n].now, src, cfg);
    DueIs(shape, Run(es[..n], cfg), src, es[n].now - cfg.window, cfg);
  }

  lemma NoPass(shape: Shape, es: seq<ScanEvent>, n: nat, src: Addr, cfg: ScanConfig)
    requires n < |es| && !es[n].Tick?
    ensures !FindingAt(shape, es, n, src, cfg) && !ToReport(shape, es, n, src, cfg)
  {
  }

  lemma FindingUnfolds(shape: Shape, es: seq<ScanEvent>, n: nat, src: Addr, cfg: ScanConfig)
    requires n < |es| && es[n].Tick?
    ensures
      var m, cutoff := Run(es[..n], cfg), es[n].now - cfg.window;
      FindingAt(shape, es, n, src, cfg) <==> src in m && FindingDue(shape, m[src], cutoff, cfg)
    ensures
      var cutoff := es[n].now - cfg.window;
      var window := WindowOf(es[..n], src, cutoff, cfg);
      ToReport(shape, es, n, src, cfg) <==>
        && FewAnswered(window, AnsweredOf(es[..n], src, cutoff, cfg), cfg.maxAnsweredRatio)
        && !Narrow(shape, window, cfg) && !StillReported(shape, es, n, src, cfg)
  {
    hide Run, FindingDue, WindowOf, AnsweredOf, FewAnswered, Narrow, StillReported;
  }
}
